// Direct access to the image file: the simple counterpart of the track cache.
module LinuxCaches {
  import opened Basics
  import opened FlatImage
  import opened DiskTracks

  class LinuxCache {
    const file: ImageFile
    const sectorSize: nat
    const sectors: nat
    const writeThrough: bool
    var unflushed: bool    // the stream of the file may hold data back

    constructor (f: ImageFile, size: nat, s: nat, w: bool)
      ensures file == f && sectorSize == size && sectors == s && writeThrough == w && !unflushed
    {
      file, sectorSize, sectors, writeThrough, unflushed := f, size, s, w, false;
    }

    predicate Valid()
      reads file`bytes
    {
      sectors * sectorSize <= |file.bytes|
    }

    lemma RangeFits(start: nat, count: nat)
      requires Valid() && start + count <= sectors
      ensures start * sectorSize + count * sectorSize <= |file.bytes|
    {
      assert sectors * sectorSize == start * sectorSize + count * sectorSize + (sectors - start - count) * sectorSize;
    }

    method ReadSectors(start: nat, count: nat) returns (r: Option<seq<Byte>>)
      requires Valid()
      modifies file`failures
      ensures file.failures >= old(file.failures)
      ensures start + count <= sectors && file.failures == old(file.failures) ==> r.Some?
      ensures r.Some? ==>
                && start + count <= sectors
                && start * sectorSize + count * sectorSize <= |file.bytes|
                && r.value == file.bytes[start * sectorSize..start * sectorSize + count * sectorSize]
    {
      if sectors < start + count {
        return None;
      }
      RangeFits(start, count);
      r := file.Read(sectorSize * start, sectorSize * count);
    }

    // The length is in bytes here, and need not be that of a sector.
    method ReadLong(start: nat, length: nat) returns (r: Option<seq<Byte>>)
      requires Valid()
      modifies file`failures
      ensures file.failures == old(file.failures) + if start < sectors && r.None? then 1 else 0
      ensures start >= sectors ==> r.None?
      ensures r.Some? ==>
                && start < sectors && start * sectorSize + length <= |file.bytes|
                && r.value == file.bytes[start * sectorSize..start * sectorSize + length]
    {
      if sectors <= start {
        return None;
      }
      r := file.Read(sectorSize * start, length);
    }

    // The file does not grow.
    method WriteLong(data: seq<Byte>, start: nat) returns (length: nat)
      requires Valid() && 0 < |data| && (start < sectors ==> start * sectorSize + |data| <= |file.bytes|)
      modifies file, this`unflushed
      ensures Valid() && |file.bytes| == |old(file.bytes)|
      ensures file.failures == old(file.failures) + if start < sectors && length == 0 then 1 else 0
      ensures start >= sectors ==> length == 0 && file.bytes == old(file.bytes)
      ensures length != 0 ==>
                && length == |data| && start < sectors
                && file.bytes == WriteAt(old(file.bytes), start * sectorSize, data)
      ensures length == 0 && start < sectors ==>
                exists stored :: 0 <= stored <= |data| && file.bytes ==
                  WriteAt(old(file.bytes), start * sectorSize, data[..stored])
    {
      if sectors <= start {
        return 0;
      }
      length := Write(data, start);
    }

    method Flush() returns (ok: bool)
      modifies file`failures, this`unflushed
      ensures file.failures == old(file.failures) + if ok then 0 else 1
      ensures unflushed == (old(unflushed) && !ok)
    {
      ok := file.Open();
      if ok {
        unflushed := false;
      }
    }

    // Where the write begins is inside the file. With write-through its data have to leave the stream as well.
    method Write(data: seq<Byte>, start: nat) returns (length: nat)
      requires Valid() && 0 < |data| && start * sectorSize + |data| <= |file.bytes|
      modifies file, this`unflushed
      ensures writeThrough && length != 0 ==> !unflushed
      ensures Valid() && |file.bytes| == |old(file.bytes)|
      ensures file.failures == old(file.failures) + if length == 0 then 1 else 0
      ensures length != 0 ==> length == |data| && file.bytes == WriteAt(old(file.bytes), start * sectorSize, data)
      ensures length == 0 ==>
                exists stored :: 0 <= stored <= |data| && file.bytes ==
                  WriteAt(old(file.bytes), start * sectorSize, data[..stored])
    {
      var ok, stored := file.Write(start * sectorSize, data);
      unflushed := true;
      if !ok {
        return 0;
      }
      assert data[..stored] == data;
      if writeThrough {
        ok := Flush();
        return if ok then |data| else 0;
      }
      return |data|;
    }

    // A failed write may have stored a part of the data.
    method WriteSectors(data: seq<Byte>, start: nat, count: nat) returns (length: nat)
      requires Valid() && |data| == count * sectorSize && |data| > 0
      modifies file, this`unflushed
      ensures writeThrough && length != 0 ==> !unflushed
      ensures start + count > sectors ==> unflushed == old(unflushed)
      ensures Valid() && |file.bytes| == |old(file.bytes)| && file.failures >= old(file.failures)
      ensures start + count <= sectors && file.failures == old(file.failures) ==> length != 0
      ensures start + count > sectors ==> length == 0 && file.bytes == old(file.bytes)
      ensures start + count <= sectors ==> start * sectorSize + |data| <= |old(file.bytes)|
      ensures length != 0 ==>
                && length == |data| && start + count <= sectors
                && file.bytes == WriteAt(old(file.bytes), start * sectorSize, data)
      ensures length == 0 && start + count <= sectors ==>
                exists stored :: 0 <= stored <= |data| && file.bytes ==
                  WriteAt(old(file.bytes), start * sectorSize, data[..stored])
    {
      if sectors < start + count {
        return 0;
      }
      RangeFits(start, count);
      length := Write(data, start);
    }
  }
}
