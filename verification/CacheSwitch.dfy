// READ LONG and WRITE LONG, which access the image file without a track cache. A disk with a track cache gives it up
// for good with the first of these commands.
module CacheSwitch {
  import opened Basics
  import opened FlatImage
  import opened TrackModel
  import opened CacheModel
  import opened DiskTracks
  import opened DiskCaches
  import opened LinuxCaches
  import opened Disks

  // A READ LONG or WRITE LONG as the disk meets it.
  datatype LongRequest =
    LongRequest(ready: Option<Sense>, relAdr: bool, write: bool, isProtected: bool, sector: nat, length: nat)

  datatype LongAnswer =
    | Rejected(sense: Sense)
    | NoBytes
    | Bytes(data: seq<Byte>)

  // The answer of a request that never gets to the image file.
  function EarlyAnswer(q: LongRequest, size: nat, blocks: nat): Option<LongAnswer> {
    if q.ready.Some? then Some(Rejected(q.ready.value))
    else if q.relAdr then Some(Rejected(Sense(IllegalRequest, InvalidFieldInCdb)))
    else if q.sector >= blocks then Some(Rejected(Sense(IllegalRequest, LbaOutOfRange)))
    else if q.write && q.isProtected then Some(Rejected(Sense(DataProtect, WriteProtected)))
    else if q.length == 0 then Some(NoBytes)
    // There are no other data but the sector contents
    else if q.length != size then Some(Rejected(Sense(IllegalRequest, InvalidFieldInCdb)))
    else None
  }

  // Why a request is refused, and that the others get to the file: those of exactly one sector of the disk.
  lemma WhyNoAccess(q: LongRequest, size: nat, blocks: nat)
    requires 0 < size
    ensures EarlyAnswer(q, size, blocks).None? <==>
              && q.ready.None? && !q.relAdr && q.sector < blocks && !(q.write && q.isProtected) && q.length == size
    ensures q.ready.Some? ==> EarlyAnswer(q, size, blocks) == Some(Rejected(q.ready.value))
    ensures q.ready.None? && q.relAdr ==>
              EarlyAnswer(q, size, blocks) == Some(Rejected(Sense(IllegalRequest, InvalidFieldInCdb)))
    ensures q.ready.None? && !q.relAdr && q.sector >= blocks ==>
              EarlyAnswer(q, size, blocks) == Some(Rejected(Sense(IllegalRequest, LbaOutOfRange)))
    ensures q.ready.None? && !q.relAdr && q.sector < blocks && q.write && q.isProtected ==>
              EarlyAnswer(q, size, blocks) == Some(Rejected(Sense(DataProtect, WriteProtected)))
    ensures q.ready.None? && !q.relAdr && q.sector < blocks && !(q.write && q.isProtected) && q.length != size ==>
              EarlyAnswer(q, size, blocks) ==
              Some(if q.length == 0 then NoBytes else Rejected(Sense(IllegalRequest, InvalidFieldInCdb)))
  {
  }

  // Each sector that is still marked as modified is in the file nevertheless.
  ghost predicate NothingPending(file: seq<Byte>, image: seq<Byte>, size: nat, blocks: nat, slots: seq<Slot>) {
    forall k: nat :: k < blocks && Dirty(slots, k) ==> SameSector(file, image, size, k)
  }

  // What a host sees without the cache is what it saw with it exactly if nothing is pending.
  lemma FileIsImage(file: seq<Byte>, image: seq<Byte>, size: nat, blocks: nat, slots: seq<Slot>)
    requires Coherent(file, image, size, blocks, slots) && blocks * size <= |file|
    ensures file == image <==> NothingPending(file, image, size, blocks, slots)
  {
    if NothingPending(file, image, size, blocks, slots) {
      forall k: nat | k < blocks
        ensures SameSector(file, image, size, k)
      {
        if !Dirty(slots, k) {
          assert SameSector(file, image, size, k);
        }
      }
      AllSectorsSame(file, image, size, blocks);
    }
    if file == image {
      forall k: nat | k < blocks
        ensures SameSector(file, image, size, k)
      {
        LowerSectorsExist(file, size, blocks, k);
      }
    }
  }

  // The switch. The result of the flush is ignored. If nothing is pending before, every outcome of the flush keeps
  // what the host sees; if something is pending, a flush that fails at once loses it.
  method Switch(c: DiskCache) returns (l: LinuxCache, ghost flushed: bool)
    requires c.Valid()
    modifies c`slots, c.file, c.Tracks()
    ensures fresh(l) && l.Valid() && l.file == c.file && l.sectorSize == c.sectorSize && l.sectors == c.blocks
    ensures !l.writeThrough
    ensures c.file.failures == old(c.file.failures) + if flushed then 0 else 1
    ensures |c.file.bytes| == |c.image| && (flushed ==> c.file.bytes == c.image)
    ensures old(NothingPending(c.file.bytes, c.image, c.sectorSize, c.blocks, c.slots)) ==> c.file.bytes == c.image
    ensures old(c.file.health.Broken?) && !old(NothingPending(c.file.bytes, c.image, c.sectorSize, c.blocks,
                                                              c.slots)) ==>
              c.file.bytes == old(c.file.bytes) && c.file.bytes != c.image
    ensures forall k: nat :: k < c.blocks && !Dirty(c.slots, k) ==> SameSector(c.file.bytes, c.image, c.sectorSize, k)
  {
    FileIsImage(c.file.bytes, c.image, c.sectorSize, c.blocks, c.slots);
    var ok := c.Flush();
    flushed := ok;
    l := new LinuxCache(c.file, c.sectorSize, c.blocks, false);
  }

  // A WRITE of one sector of 512 bytes into a new cache, and the switch while the file does not work: where the host
  // has written ones it reads zeros again.
  method LoseSector() returns (length: nat, after: seq<Byte>)
    ensures length == 512 && after == seq(512, _ => 0)
  {
    hide DiskCache.Consistent;
    var c;
    c, length := WriteSector();
    c.file.health := Broken;
    after := BreakAndSwitch(c);
  }

  method WriteSector() returns (c: DiskCache, length: nat)
    ensures c.Valid() && fresh(c) && fresh(c.file) && fresh(c.Tracks() - {null})
    ensures length == 512 && c.file.bytes == seq(512, _ => 0) && c.image == seq(512, _ => 1)
    ensures c.file.bytes != c.image
  {
    hide DiskCache.Consistent;
    hide Coherent;
    var f := new ImageFile(seq(512, _ => 0));
    f.health := Sound;
    c := new DiskCache(f, 512, 1);
    assert forall t :: t in c.Tracks() ==> t == null || t in c.Tracks() - {null};
    length := c.WriteSectors(seq(512, _ => 1), 0, 1);
    assert c.image[0] == 1 && f.bytes[0] == 0;
  }

  method BreakAndSwitch(c: DiskCache) returns (after: seq<Byte>)
    requires c.Valid() && c.file.health.Broken? && c.file.bytes != c.image
    modifies c`slots, c.file, c.Tracks()
    ensures after == old(c.file.bytes)
  {
    FileIsImage(c.file.bytes, c.image, c.sectorSize, c.blocks, c.slots);
    var l, _ := Switch(c);
    after := l.file.bytes;
  }

  // The first READ LONG on a track cache. A request that is refused leaves the cache alone. A failed access is no
  // error for the initiator. It gets no data exactly if the sector cannot be read from the file; if the flush has
  // failed the data are those of the file, which are what the cache showed unless the sector is still marked as
  // modified.
  method ReadLong(c: DiskCache, q: LongRequest) returns (a: LongAnswer, l: LinuxCache?, ghost flushed: bool)
    requires c.Valid() && 0 < c.sectorSize && !q.write
    modifies c`slots, c.file, c.Tracks()
    ensures EarlyAnswer(q, c.sectorSize, c.blocks).Some? ==>
              && a == EarlyAnswer(q, c.sectorSize, c.blocks).value && l == null
              && c.Valid() && c.file.bytes == old(c.file.bytes)
    ensures EarlyAnswer(q, c.sectorSize, c.blocks).None? ==>
              && l != null && l.Valid() && l.file == c.file && !a.Rejected?
              && HasSector(c.file.bytes, c.sectorSize, q.sector)
              && (a == NoBytes || a == Bytes(Sector(c.file.bytes, c.sectorSize, q.sector)))
              && c.file.failures == old(c.file.failures) + (if flushed then 0 else 1) + (if a == NoBytes then 1 else 0)
              && (flushed ==> c.file.bytes == c.image)
              && (flushed || !Dirty(c.slots, q.sector) || old(NothingPending(c.file.bytes, c.image, c.sectorSize,
                                                                             c.blocks, c.slots)) ==>
                    SameSector(c.file.bytes, c.image, c.sectorSize, q.sector))
  {
    var early := EarlyAnswer(q, c.sectorSize, c.blocks);
    if early.Some? {
      return early.value, null, false;
    }
    l, flushed := Switch(c);
    LowerSectorsExist(c.file.bytes, c.sectorSize, c.blocks, q.sector);
    var r := l.ReadLong(q.sector, q.length);
    a := if r.Some? then Bytes(r.value) else NoBytes;
  }

  // The first WRITE LONG, with the sector that arrives in DATA OUT.
  method WriteLong(c: DiskCache, q: LongRequest, data: seq<Byte>)
    returns (a: LongAnswer, l: LinuxCache?, ghost flushed: bool)
    requires c.Valid() && 0 < c.sectorSize && |data| == c.sectorSize && q.write
    modifies c`slots, c.file, c.Tracks()
    ensures EarlyAnswer(q, c.sectorSize, c.blocks).Some? ==>
              && a == EarlyAnswer(q, c.sectorSize, c.blocks).value && l == null
              && c.Valid() && c.file.bytes == old(c.file.bytes)
    ensures EarlyAnswer(q, c.sectorSize, c.blocks).None? ==>
              && l != null && l.Valid() && l.file == c.file && |c.file.bytes| == |c.image|
              && (a == NoBytes || a == Rejected(Sense(MediumError, WriteFault)))
              && c.file.failures == old(c.file.failures) + (if flushed then 0 else 1) + (if a == NoBytes then 0 else 1)
              && HasSector(c.image, c.sectorSize, q.sector)
              && (flushed && a == NoBytes ==>
                    c.file.bytes == WriteAt(c.image, q.sector * c.sectorSize, data))
  {
    var early := EarlyAnswer(q, c.sectorSize, c.blocks);
    if early.Some? {
      return early.value, null, false;
    }
    l, flushed := Switch(c);
    LowerSectorsExist(c.file.bytes, c.sectorSize, c.blocks, q.sector);
    var length := l.WriteLong(data, q.sector);
    a := if length != 0 then NoBytes else Rejected(Sense(MediumError, WriteFault));
  }
}
