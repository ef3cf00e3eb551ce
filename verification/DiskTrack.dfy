// The image file and a track of it held in memory.
module DiskTracks {
  import opened Basics
  import opened FlatImage
  import opened TrackModel

  // A file on the host. Every access may fail; a failed write may have stored a prefix of the data.
  // Every access to a file works, or any may fail, or every one fails at once.
  datatype Health = Sound | Unsteady | Broken

  class ImageFile {
    var bytes: seq<Byte>
    var health: Health
    ghost var failures: nat    // how many accesses have failed so far

    constructor (content: seq<Byte>)
      ensures bytes == content && failures == 0 && health.Unsteady?
    {
      bytes, health, failures := content, Unsteady, 0;
    }

    method Open() returns (ok: bool)
      modifies this`failures
      ensures failures == old(failures) + if ok then 0 else 1
      ensures (health.Broken? ==> !ok) && (health.Sound? ==> ok)
    {
      ok := *;
      if !health.Unsteady? {
        ok := health.Sound?;
      }
      failures := failures + if ok then 0 else 1;
    }

    method Read(offset: nat, length: nat) returns (r: Option<seq<Byte>>)
      modifies this`failures
      ensures failures == old(failures) + if r.Some? then 0 else 1
      ensures r.Some? ==> offset + length <= |bytes| && r.value == bytes[offset..offset + length]
      ensures health.Sound? && offset + length <= |bytes| ==> r.Some?
    {
      var ok: bool := *;
      if (ok || health.Sound?) && !health.Broken? && offset + length <= |bytes| {
        r := Some(bytes[offset..offset + length]);
      } else {
        r := None;
      }
      failures := failures + if r.Some? then 0 else 1;
    }

    method Write(offset: nat, data: seq<Byte>) returns (ok: bool, stored: nat)
      requires offset + |data| <= |bytes|
      modifies this
      ensures failures == old(failures) + if ok then 0 else 1
      ensures stored <= |data| && (ok ==> stored == |data|)
      ensures bytes == WriteAt(old(bytes), offset, data[..stored]) && health == old(health)
      ensures (health.Broken? ==> !ok && bytes == old(bytes)) && (health.Sound? ==> ok)
    {
      ok := *;
      if health.Broken? {
        ok, stored := false, 0;
      } else if ok || health.Sound? {
        ok := true;
        stored := |data|;
      } else {
        stored :| 0 <= stored <= |data|;
      }
      failures := failures + if ok then 0 else 1;
      bytes := WriteAt(bytes, offset, data[..stored]);
    }
  }

  class DiskTrack {
    var trackNumber: nat
    var sectorSize: nat
    var sectorCount: nat
    var buffer: seq<Byte>
    var isInitialized: bool
    var isModified: bool
    var modifiedFlags: seq<bool>

    constructor ()
    {
      trackNumber, sectorSize, sectorCount := 0, 0, 0;
      buffer, modifiedFlags := [], [];
      isInitialized, isModified := false, false;
    }

    // The track as a value.
    ghost function View(): Track
      reads this
    {
      Track(trackNumber, buffer, modifiedFlags)
    }

    ghost predicate Loaded()
      reads this
    {
      && isInitialized && 0 < sectorCount <= 256
      && |modifiedFlags| == sectorCount && |buffer| == sectorCount * sectorSize
      && (!isModified ==> forall k :: 0 <= k < |modifiedFlags| ==> !modifiedFlags[k])
    }

    method Init(track: nat, size: nat, sectors: nat)
      requires 0 < sectors <= 256
      modifies this
      ensures trackNumber == track && sectorSize == size && sectorCount == sectors
      ensures !isInitialized && !isModified
    {
      trackNumber := track;
      sectorSize := size;
      sectorCount := sectors;
      isInitialized := false;
      isModified := false;
    }

    method Load(file: ImageFile) returns (ok: bool)
      requires !isInitialized && 0 < sectorCount <= 256
      modifies this, file`failures
      ensures file.failures == old(file.failures) + if ok then 0 else 1
      ensures trackNumber == old(trackNumber) && sectorSize == old(sectorSize) && sectorCount == old(sectorCount)
      ensures Loaded() && !isModified
      ensures file.health.Sound? && (256 * trackNumber + sectorCount) * sectorSize <= |file.bytes| ==> ok
      ensures ok ==> var t := View();
                     && |t.flags| == sectorCount && Fits(file.bytes, sectorSize, t)
                     && buffer == file.bytes[Offset(sectorSize, t, 0)..Offset(sectorSize, t, sectorCount)]
    {
      var size := sectorCount * sectorSize;
      if |buffer| != size {
        buffer := seq(size, _ => 0);
      }
      modifiedFlags := seq(sectorCount, _ => false);
      isInitialized := true;
      isModified := false;

      ok := file.Open();
      if !ok {
        return;
      }

      // Previous tracks are considered to hold 256 sectors
      var offset := 256 * trackNumber * sectorSize;
      Distributes(256 * trackNumber, sectorCount, sectorSize);
      var data := file.Read(offset, size);
      if data.None? {
        return false;
      }
      buffer := data.value;
      hide Fits;
      hide Offset;
      LoadedRange(file.bytes, sectorSize, View());
    }

    // Determine the consecutive modified sectors that start with sector i, and their total size.
    method CountRun(i: nat) returns (j: nat, total: nat)
      requires Loaded() && i < sectorCount && modifiedFlags[i]
      ensures i < j <= sectorCount && AllModified(View(), i, j)
      ensures j < sectorCount ==> !modifiedFlags[j]
      ensures total == j * sectorSize - i * sectorSize
    {
      total := 0;
      j := i;
      while j < sectorCount && modifiedFlags[j]
        invariant i <= j <= sectorCount && total == j * sectorSize - i * sectorSize
        invariant AllModified(View(), i, j)
      {
        SectorsInOrder(sectorSize, j, j + 1);
        total := total + sectorSize;
        j := j + 1;
      }
    }

    // Write the run of modified sectors from i to j.
    method WriteRun(file: ImageFile, offset: nat, i: nat, j: nat, total: nat) returns (ok: bool)
      requires Loaded() && Fits(file.bytes, sectorSize, View())
      requires offset == View().First() * sectorSize && i < j <= sectorCount && AllModified(View(), i, j)
      requires total == j * sectorSize - i * sectorSize
      modifies file
      ensures file.failures == old(file.failures) + if ok then 0 else 1
      ensures Fits(file.bytes, sectorSize, View())
      ensures ok ==> SaveFrom(file.bytes, sectorSize, View(), j) == SaveFrom(old(file.bytes), sectorSize, View(), i)
      ensures forall a :: SameOutsideDirty(a, old(file.bytes), sectorSize, View()) ==>
                SameOutsideDirty(a, file.bytes, sectorSize, View())
      ensures file.health == old(file.health)
      ensures UpToDate(old(file.bytes), sectorSize, View()) || file.health.Broken? ==> file.bytes == old(file.bytes)
    {
      ghost var t := View();
      RunFits(file.bytes, sectorSize, t, i, j);
      RunBounds(sectorSize, t, i, j);
      var start := i * sectorSize;
      var data := buffer[start..start + total];
      assert data == RunData(sectorSize, t, i, j);
      var stored;
      ok, stored := file.Write(offset + start, data);
      RunEffect(old(file.bytes), sectorSize, t, i, j, stored);
      if UpToDate(old(file.bytes), sectorSize, t) {
        RunOfUpToDate(old(file.bytes), sectorSize, t, i, j, stored);
      }
    }

    // One round of Save: a run of modified sectors, or a sector that is not modified
    method SaveNext(file: ImageFile, offset: nat, i: nat) returns (ok: bool, next: nat)
      requires Loaded() && Fits(file.bytes, sectorSize, View()) && offset == View().First() * sectorSize
      requires i < sectorCount
      modifies file
      ensures file.failures == old(file.failures) + if ok then 0 else 1
      ensures Fits(file.bytes, sectorSize, View()) && i < next <= sectorCount
      ensures ok ==> SaveFrom(file.bytes, sectorSize, View(), next) == SaveFrom(old(file.bytes), sectorSize, View(), i)
      ensures forall a :: SameOutsideDirty(a, old(file.bytes), sectorSize, View()) ==>
                SameOutsideDirty(a, file.bytes, sectorSize, View())
      ensures file.health == old(file.health)
      ensures UpToDate(old(file.bytes), sectorSize, View()) || file.health.Broken? ==> file.bytes == old(file.bytes)
    {
      hide SaveFrom;
      hide SameOutsideDirty;
      hide UpToDate;
      hide Fits;
      if modifiedFlags[i] {
        // Next unmodified sector
        var total;
        next, total := CountRun(i);
        ok := WriteRun(file, offset, i, next, total);
      } else {
        CleanIsSkipped(file.bytes, sectorSize, View(), i);
        ok, next := true, i + 1;
      }
    }

    // Nothing but modified sectors is written, whether or not all of them arrive; when all do, the file
    // is the one that writing each modified sector on its own would give. Writing what the file has already changes
    // nothing, wherever it fails.
    method Save(file: ImageFile) returns (ok: bool)
      requires isInitialized ==> Loaded() && Fits(file.bytes, sectorSize, View())
      modifies file, this`isModified, this`modifiedFlags
      ensures file.failures == old(file.failures) + if ok then 0 else 1
      ensures isInitialized ==> Loaded()
      ensures !isInitialized ==> ok && file.bytes == old(file.bytes)
      ensures ok && isInitialized ==>
                && file.bytes == SaveFrom(old(file.bytes), sectorSize, old(View()), 0)
                && (forall k :: 0 <= k < |modifiedFlags| ==> !modifiedFlags[k])
      ensures !ok ==>
                && View() == old(View()) && isModified == old(isModified)
                && SameOutsideDirty(old(file.bytes), file.bytes, sectorSize, View())
      ensures file.health == old(file.health)
      ensures (isInitialized && UpToDate(old(file.bytes), sectorSize, old(View()))) || file.health.Broken? ==>
                file.bytes == old(file.bytes)
    {
      if !isInitialized || !isModified {
        if isInitialized {
          NothingToSave(file.bytes, sectorSize, View(), 0);
        }
        return true;
      }

      ghost var t := View();
      SameOutsideDirtyRefl(file.bytes, sectorSize, t);
      hide SaveFrom;
      hide SameOutsideDirty;
      hide UpToDate;

      ok := file.Open();
      if !ok {
        return;
      }
      var offset := 256 * trackNumber * sectorSize;

      var i := 0;
      while i < sectorCount
        invariant 0 <= i <= sectorCount && Loaded() && View() == t && isModified
        invariant file.failures == old(file.failures)
        invariant Fits(file.bytes, sectorSize, t)
        invariant SaveFrom(file.bytes, sectorSize, t, i) == SaveFrom(old(file.bytes), sectorSize, t, 0)
        invariant SameOutsideDirty(old(file.bytes), file.bytes, sectorSize, t)
        invariant file.health == old(file.health)
        invariant UpToDate(old(file.bytes), sectorSize, t) || file.health.Broken? ==> file.bytes == old(file.bytes)
        modifies file
      {
        ok, i := SaveNext(file, offset, i);
        if !ok {
          return;
        }
      }
      SavedToTheEnd(file.bytes, sectorSize, t);

      modifiedFlags := seq(sectorCount, _ => false);
      isModified := false;
      ok := true;
    }

    // Length 0 in the source is None here.
    method ReadSector(sector: nat) returns (r: Option<seq<Byte>>)
      requires sector < 256 && (isInitialized ==> Loaded())
      ensures r.Some? <==> isInitialized && sector < sectorCount
      ensures r.Some? ==> HasSector(buffer, sectorSize, sector) && r.value == Sector(buffer, sectorSize, sector)
    {
      if !isInitialized || sector >= sectorCount {
        return None;
      }
      LowerSectorsExist(buffer, sectorSize, sectorCount, sector);
      return Some(buffer[sector * sectorSize..sector * sectorSize + sectorSize]);
    }

    // The sector is marked when its content changes, and stays marked.
    method WriteSector(data: seq<Byte>, sector: nat) returns (length: nat)
      requires sector < 256 && |data| == sectorSize && (isInitialized ==> Loaded())
      modifies this`buffer, this`modifiedFlags, this`isModified
      ensures isInitialized ==> Loaded()
      ensures isInitialized && sector < sectorCount ==>
                && length == sectorSize && HasSector(old(buffer), sectorSize, sector)
                && buffer == WriteAt(old(buffer), sector * sectorSize, data)
                && modifiedFlags == old(modifiedFlags)[sector :=
                     old(modifiedFlags)[sector] || data != Sector(old(buffer), sectorSize, sector)]
      ensures !(isInitialized && sector < sectorCount) ==> length == 0 && View() == old(View())
    {
      if !isInitialized || sector >= sectorCount {
        return 0;
      }
      LowerSectorsExist(buffer, sectorSize, sectorCount, sector);
      var offset := sector * sectorSize;
      // Check if any data have changed
      if data != buffer[offset..offset + sectorSize] {
        buffer := WriteAt(buffer, offset, data);
        modifiedFlags := modifiedFlags[sector := true];
        isModified := true;
      }
      return sectorSize;
    }
  }

  lemma {:induction false} NothingToSave(file: seq<Byte>, size: nat, t: Track, i: nat)
    requires Fits(file, size, t) && i <= |t.flags| && forall k :: 0 <= k < |t.flags| ==> !t.flags[k]
    ensures SaveFrom(file, size, t, i) == file
    decreases |t.flags| - i
  {
    if i < |t.flags| {
      NothingToSave(file, size, t, i + 1);
    }
  }

  // A run of an up to date track is in the file already.
  lemma RunOfUpToDate(file: seq<Byte>, size: nat, t: Track, i: nat, j: nat, stored: nat)
    requires Fits(file, size, t) && i <= j <= |t.flags| && AllModified(t, i, j) && UpToDate(file, size, t)
    requires stored <= |RunData(size, t, i, j)|
    ensures Offset(size, t, i) + stored <= |file|
    ensures WriteAt(file, Offset(size, t, i), RunData(size, t, i, j)[..stored]) == file
  {
    RunFits(file, size, t, i, j);
    RunIsInFile(file, size, t, i, j);
    var offset, run := Offset(size, t, i), RunData(size, t, i, j);
    assert file[offset..offset + |run|][..stored] == file[offset..offset + stored];
  }

  lemma RunEffect(before: seq<Byte>, size: nat, t: Track, i: nat, j: nat, stored: nat)
    requires Fits(before, size, t) && i <= j <= |t.flags| && AllModified(t, i, j)
    requires stored <= |RunData(size, t, i, j)|
    ensures Offset(size, t, i) + stored <= |before|
    ensures var after := WriteAt(before, Offset(size, t, i), RunData(size, t, i, j)[..stored]);
            && Fits(after, size, t)
            && (stored == |RunData(size, t, i, j)| ==> SaveFrom(after, size, t, j) == SaveFrom(before, size, t, i))
            && forall a :: SameOutsideDirty(a, before, size, t) ==> SameOutsideDirty(a, after, size, t)
  {
    var data := RunData(size, t, i, j)[..stored];
    RunFits(before, size, t, i, j);
    if stored == |RunData(size, t, i, j)| {
      assert data == RunData(size, t, i, j);
      RunIsItsSectors(before, size, t, i, j);
    }
    forall a | SameOutsideDirty(a, before, size, t)
      ensures SameOutsideDirty(a, WriteAt(before, Offset(size, t, i), data), size, t)
    {
      PartialRunOutsideDirty(a, before, size, t, i, j, data);
    }
  }
}
