// One cached track as a value, and what saving it does to the image file.
module TrackModel {
  import opened Basics
  import opened FlatImage

  // A track holds up to 256 sectors, starting at sector 256 * number; flags marks the modified ones.
  datatype Track = Track(number: nat, buffer: seq<Byte>, flags: seq<bool>) {
    function First(): nat { 256 * number }
    function End(): nat { First() + |flags| }
  }

  predicate Fits(file: seq<Byte>, size: nat, t: Track) {
    && |t.buffer| == |t.flags| * size
    && t.End() * size <= |file|
  }

  predicate DirtyAt(t: Track, k: nat) {
    t.First() <= k < t.End() && t.flags[k - t.First()]
  }

  // Where sector i of the track starts in the file.
  function Offset(size: nat, t: Track, i: nat): nat {
    t.First() * size + i * size
  }

  lemma Distributes(a: nat, b: nat, size: nat)
    ensures a * size + b * size == (a + b) * size
  {
  }

  lemma OffsetIsSector(size: nat, t: Track, i: nat)
    ensures Offset(size, t, i) == (t.First() + i) * size
  {
  }

  lemma LoadedRange(file: seq<Byte>, size: nat, t: Track)
    requires |t.buffer| == |t.flags| * size && 256 * t.number * size + |t.flags| * size <= |file|
    requires t.buffer == file[256 * t.number * size..256 * t.number * size + |t.flags| * size]
    ensures Fits(file, size, t) && Offset(size, t, 0) <= Offset(size, t, |t.flags|) <= |file|
    ensures t.buffer == file[Offset(size, t, 0)..Offset(size, t, |t.flags|)]
  {
    OffsetIsSector(size, t, |t.flags|);
  }

  lemma TrackSectorExists(file: seq<Byte>, size: nat, t: Track, i: nat)
    requires Fits(file, size, t) && i < |t.flags|
    ensures HasSector(file, size, t.First() + i) && HasSector(t.buffer, size, i)
    ensures Offset(size, t, i) == (t.First() + i) * size && Offset(size, t, i) + size <= |file|
  {
    LowerSectorsExist(file, size, t.End(), t.First() + i);
    LowerSectorsExist(t.buffer, size, |t.flags|, i);
    OffsetIsSector(size, t, i);
  }

  function SaveSector(file: seq<Byte>, size: nat, t: Track, i: nat): (r: seq<Byte>)
    requires Fits(file, size, t) && i < |t.flags|
    ensures Fits(r, size, t) && |r| == |file|
  {
    TrackSectorExists(file, size, t, i);
    if t.flags[i] then WriteAt(file, Offset(size, t, i), Sector(t.buffer, size, i)) else file
  }

  // The file after writing every modified sector from the i-th on, each one on its own.
  function SaveFrom(file: seq<Byte>, size: nat, t: Track, i: nat): (r: seq<Byte>)
    requires Fits(file, size, t) && i <= |t.flags|
    ensures |r| == |file|
    decreases |t.flags| - i
  {
    if i == |t.flags| then file else SaveFrom(SaveSector(file, size, t, i), size, t, i + 1)
  }

  lemma CleanIsSkipped(file: seq<Byte>, size: nat, t: Track, i: nat)
    requires Fits(file, size, t) && i < |t.flags| && !t.flags[i]
    ensures SaveFrom(file, size, t, i) == SaveFrom(file, size, t, i + 1)
  {
  }

  lemma SavedToTheEnd(file: seq<Byte>, size: nat, t: Track)
    requires Fits(file, size, t)
    ensures SaveFrom(file, size, t, |t.flags|) == file
  {
  }

  lemma SectorAfterSaveSector(file: seq<Byte>, size: nat, t: Track, i: nat, k: nat)
    requires Fits(file, size, t) && i < |t.flags| && HasSector(file, size, k)
    ensures HasSector(t.buffer, size, i)
    ensures Sector(SaveSector(file, size, t, i), size, k) ==
            if t.flags[i] && k == t.First() + i then Sector(t.buffer, size, i) else Sector(file, size, k)
  {
    TrackSectorExists(file, size, t, i);
    var data := Sector(t.buffer, size, i);
    assert 1 * size == size;
    if t.flags[i] {
      if k == t.First() + i {
        SectorInsideWrite(file, size, t.First() + i, 1, data, k);
        assert Sector(data, size, 0) == data;
      } else {
        SectorOutsideWrite(file, size, t.First() + i, 1, data, k);
      }
    }
  }

  // Saving puts the buffer's sector in place of every modified one, and changes no other sector.
  lemma {:induction false} SectorAfterSave(file: seq<Byte>, size: nat, t: Track, i: nat, k: nat)
    requires Fits(file, size, t) && i <= |t.flags| && HasSector(file, size, k)
    ensures t.First() + i <= k < t.End() ==> HasSector(t.buffer, size, k - t.First())
    ensures Sector(SaveFrom(file, size, t, i), size, k) ==
            if t.First() + i <= k && DirtyAt(t, k) then Sector(t.buffer, size, k - t.First())
            else Sector(file, size, k)
    decreases |t.flags| - i
  {
    if t.First() + i <= k < t.End() {
      TrackSectorExists(file, size, t, k - t.First());
    }
    if i < |t.flags| {
      SectorAfterSaveSector(file, size, t, i, k);
      SectorAfterSave(SaveSector(file, size, t, i), size, t, i + 1, k);
    }
  }

  lemma {:induction false} TailAfterSave(file: seq<Byte>, size: nat, t: Track, i: nat, from: nat)
    requires Fits(file, size, t) && i <= |t.flags| && t.End() * size <= from <= |file|
    ensures SaveFrom(file, size, t, i)[from..] == file[from..]
    decreases |t.flags| - i
  {
    if i < |t.flags| {
      TrackSectorExists(file, size, t, i);
      SectorsInOrder(size, t.First() + i, t.End());
      TailAfterSave(SaveSector(file, size, t, i), size, t, i + 1, from);
    }
  }

  lemma WriteInTwo(file: seq<Byte>, offset: nat, a: seq<Byte>, b: seq<Byte>)
    requires offset + |a| + |b| <= |file|
    ensures WriteAt(WriteAt(file, offset, a), offset + |a|, b) == WriteAt(file, offset, a + b)
  {
  }

  predicate AllModified(t: Track, i: nat, j: nat)
    requires i <= j <= |t.flags|
  {
    forall k :: i <= k < j ==> t.flags[k]
  }

  function RunData(size: nat, t: Track, i: nat, j: nat): (r: seq<Byte>)
    requires |t.buffer| == |t.flags| * size && i <= j <= |t.flags|
    ensures |r| == j * size - i * size
  {
    RunBounds(size, t, i, j);
    t.buffer[i * size..j * size]
  }

  lemma RunBounds(size: nat, t: Track, i: nat, j: nat)
    requires |t.buffer| == |t.flags| * size && i <= j <= |t.flags|
    ensures i * size <= j * size <= |t.buffer|
  {
    Monotone(size, i, j);
    Monotone(size, j, |t.flags|);
  }

  lemma Monotone(size: nat, i: nat, j: nat)
    requires i <= j
    ensures i * size <= j * size
  {
    if i < j {
      SectorsInOrder(size, i, j);
    }
  }

  lemma RunFits(file: seq<Byte>, size: nat, t: Track, i: nat, j: nat)
    requires Fits(file, size, t) && i <= j <= |t.flags|
    ensures Offset(size, t, i) + |RunData(size, t, i, j)| == Offset(size, t, j) <= |file|
  {
    RunBounds(size, t, i, j);
    OffsetIsSector(size, t, |t.flags|);
    Monotone(size, j, |t.flags|);
  }

  lemma SliceSplits(b: seq<Byte>, x: nat, y: nat, z: nat)
    requires x <= y <= z <= |b|
    ensures b[x..z] == b[x..y] + b[y..z]
  {
  }

  lemma RunSplits(size: nat, t: Track, i: nat, j: nat)
    requires |t.buffer| == |t.flags| * size && i < j <= |t.flags|
    ensures HasSector(t.buffer, size, i)
    ensures RunData(size, t, i, j) == Sector(t.buffer, size, i) + RunData(size, t, i + 1, j)
  {
    RunBounds(size, t, i, j);
    RunBounds(size, t, i + 1, j);
    SectorsInOrder(size, i, j);
    SliceSplits(t.buffer, i * size, i * size + size, j * size);
  }

  lemma NextOffset(size: nat, t: Track, i: nat)
    ensures Offset(size, t, i + 1) == Offset(size, t, i) + size
  {
  }

  lemma SaveSectorThenRest(file: seq<Byte>, size: nat, t: Track, i: nat, j: nat)
    requires Fits(file, size, t) && i < j <= |t.flags| && t.flags[i]
    ensures Offset(size, t, i) + |RunData(size, t, i, j)| <= |file|
    ensures Offset(size, t, i + 1) + |RunData(size, t, i + 1, j)| <= |file|
    ensures WriteAt(SaveSector(file, size, t, i), Offset(size, t, i + 1), RunData(size, t, i + 1, j))
            == WriteAt(file, Offset(size, t, i), RunData(size, t, i, j))
  {
    RunFits(file, size, t, i, j);
    RunFits(file, size, t, i + 1, j);
    TrackSectorExists(file, size, t, i);
    RunSplits(size, t, i, j);
    NextOffset(size, t, i);
    WriteInTwo(file, Offset(size, t, i), Sector(t.buffer, size, i), RunData(size, t, i + 1, j));
  }

  // Writing a run of consecutive modified sectors at once is writing them one by one.
  lemma {:induction false} RunIsItsSectors(file: seq<Byte>, size: nat, t: Track, i: nat, j: nat)
    requires Fits(file, size, t) && i <= j <= |t.flags| && AllModified(t, i, j)
    ensures Offset(size, t, i) + |RunData(size, t, i, j)| <= |file|
    ensures SaveFrom(file, size, t, i) ==
            SaveFrom(WriteAt(file, Offset(size, t, i), RunData(size, t, i, j)), size, t, j)
    decreases j - i
  {
    RunFits(file, size, t, i, j);
    if i == j {
      assert WriteAt(file, Offset(size, t, i), RunData(size, t, i, j)) == file;
    } else {
      RunIsItsSectors(SaveSector(file, size, t, i), size, t, i + 1, j);
      SaveSectorThenRest(file, size, t, i, j);
    }
  }

  // The files agree on everything except the track's modified sectors.
  predicate SameOutsideDirty(a: seq<Byte>, b: seq<Byte>, size: nat, t: Track) {
    && |a| == |b| && t.End() * size <= |a|
    && a[t.End() * size..] == b[t.End() * size..]
    && forall k: nat :: k < t.End() && !DirtyAt(t, k) ==>
         HasSector(a, size, k) && HasSector(b, size, k) && Sector(a, size, k) == Sector(b, size, k)
  }

  lemma SameOutsideDirtyRefl(a: seq<Byte>, size: nat, t: Track)
    requires t.End() * size <= |a|
    ensures SameOutsideDirty(a, a, size, t)
  {
    forall k: nat | k < t.End()
      ensures HasSector(a, size, k)
    {
      LowerSectorsExist(a, size, t.End(), k);
    }
  }

  lemma PartialRunSector(b: seq<Byte>, size: nat, t: Track, i: nat, j: nat, data: seq<Byte>, k: nat)
    requires Fits(b, size, t) && i <= j <= |t.flags| && AllModified(t, i, j)
    requires |data| <= |RunData(size, t, i, j)|
    requires k < t.End() && !DirtyAt(t, k)
    ensures HasSector(b, size, k) && Offset(size, t, i) + |data| <= |b|
    ensures Sector(WriteAt(b, Offset(size, t, i), data), size, k) == Sector(b, size, k)
  {
    LowerSectorsExist(b, size, t.End(), k);
    RunFits(b, size, t, i, j);
    OffsetIsSector(size, t, i);
    assert j * size - i * size == (j - i) * size;
    SectorOutsideWrite(b, size, t.First() + i, j - i, data, k);
  }

  // A failed write inside a run, however much of it arrived, only touches modified sectors.
  lemma PartialRunOutsideDirty(a: seq<Byte>, b: seq<Byte>, size: nat, t: Track, i: nat, j: nat, data: seq<Byte>)
    requires SameOutsideDirty(a, b, size, t) && Fits(b, size, t)
    requires i <= j <= |t.flags| && AllModified(t, i, j) && |data| <= |RunData(size, t, i, j)|
    ensures Offset(size, t, i) + |data| <= |b|
    ensures SameOutsideDirty(a, WriteAt(b, Offset(size, t, i), data), size, t)
  {
    RunFits(b, size, t, i, j);
    RunFits(b, size, t, j, |t.flags|);
    OffsetIsSector(size, t, |t.flags|);
    var offset := Offset(size, t, i);
    var c := WriteAt(b, offset, data);
    TailOutsideWrite(b, offset, data, t.End() * size);
    forall k: nat | k < t.End() && !DirtyAt(t, k)
      ensures HasSector(c, size, k) && Sector(b, size, k) == Sector(c, size, k)
    {
      PartialRunSector(b, size, t, i, j, data, k);
    }
  }

  // Whatever a failed attempt left behind, saving again leads to the same file.
  lemma RetryReachesSameFile(a: seq<Byte>, b: seq<Byte>, size: nat, t: Track)
    requires Fits(a, size, t) && Fits(b, size, t) && SameOutsideDirty(a, b, size, t)
    ensures SaveFrom(a, size, t, 0) == SaveFrom(b, size, t, 0)
  {
    var x, y := SaveFrom(a, size, t, 0), SaveFrom(b, size, t, 0);
    forall k: nat | k < t.End()
      ensures HasSector(x, size, k) && HasSector(y, size, k) && Sector(x, size, k) == Sector(y, size, k)
    {
      LowerSectorsExist(a, size, t.End(), k);
      SectorAfterSave(a, size, t, 0, k);
      SectorAfterSave(b, size, t, 0, k);
    }
    TailAfterSave(a, size, t, 0, t.End() * size);
    TailAfterSave(b, size, t, 0, t.End() * size);
    SameSectorsSameFile(x, y, size, t.End());
  }

  // Each modified sector is in the file already.
  predicate UpToDate(file: seq<Byte>, size: nat, t: Track) {
    && Fits(file, size, t)
    && forall i :: 0 <= i < |t.flags| && t.flags[i] ==>
         && HasSector(file, size, t.First() + i) && HasSector(t.buffer, size, i)
         && Sector(file, size, t.First() + i) == Sector(t.buffer, size, i)
  }

  lemma {:induction false} RunIsInFile(file: seq<Byte>, size: nat, t: Track, i: nat, j: nat)
    requires Fits(file, size, t) && i <= j <= |t.flags| && AllModified(t, i, j) && UpToDate(file, size, t)
    ensures Offset(size, t, i) + |RunData(size, t, i, j)| <= |file|
    ensures file[Offset(size, t, i)..Offset(size, t, i) + |RunData(size, t, i, j)|] == RunData(size, t, i, j)
    decreases j - i
  {
    RunFits(file, size, t, i, j);
    if i < j {
      RunSplits(size, t, i, j);
      RunIsInFile(file, size, t, i + 1, j);
      NextOffset(size, t, i);
      OffsetIsSector(size, t, i);
      var a, b, c := Offset(size, t, i), Offset(size, t, i + 1), Offset(size, t, j);
      RunFits(file, size, t, i + 1, j);
      assert file[a..c] == file[a..b] + file[b..c];
    } else {
      assert RunData(size, t, i, j) == [];
    }
  }
}
