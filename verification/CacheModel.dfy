// The set of cached tracks as a value: the file together with the cached tracks stands for one flat image.
module CacheModel {
  import opened Basics
  import opened FlatImage
  import opened TrackModel

  datatype Slot = Slot(track: Option<Track>, serial: nat)

  predicate TrackShape(t: Track, size: nat, blocks: nat) {
    && t.First() < blocks
    && |t.flags| == Min(256, blocks - t.First())
    && |t.buffer| == |t.flags| * size
  }

  predicate Holds(slots: seq<Slot>, i: int) {
    0 <= i < |slots| && slots[i].track.Some?
  }

  ghost predicate SlotShapes(slots: seq<Slot>, size: nat, blocks: nat) {
    && (forall i :: Holds(slots, i) ==> TrackShape(slots[i].track.value, size, blocks))
    && (forall i, j :: Holds(slots, i) && Holds(slots, j) && i != j ==>
          slots[i].track.value.number != slots[j].track.value.number)
  }

  predicate HoldsImage(t: Track, image: seq<Byte>, size: nat) {
    && t.First() * size + |t.flags| * size <= |image|
    && t.buffer == image[t.First() * size..t.First() * size + |t.flags| * size]
  }

  ghost predicate Dirty(slots: seq<Slot>, k: nat) {
    exists i :: Holds(slots, i) && DirtyAt(slots[i].track.value, k)
  }

  predicate SameSector(a: seq<Byte>, b: seq<Byte>, size: nat, k: nat) {
    HasSector(a, size, k) && HasSector(b, size, k) && Sector(a, size, k) == Sector(b, size, k)
  }

  predicate SameTail(a: seq<Byte>, b: seq<Byte>, from: nat) {
    |a| == |b| && from <= |a| && a[from..] == b[from..]
  }

  // image is what a host sees: cached tracks hold their part of it, and the file holds every sector of it
  // that is not marked as modified.
  ghost predicate Coherent(file: seq<Byte>, image: seq<Byte>, size: nat, blocks: nat, slots: seq<Slot>) {
    && SameTail(file, image, blocks * size)
    && SlotShapes(slots, size, blocks)
    && (forall i :: Holds(slots, i) ==> HoldsImage(slots[i].track.value, image, size))
    && (forall k: nat :: k < blocks && !Dirty(slots, k) ==> SameSector(file, image, size, k))
  }

  lemma TrackFits(file: seq<Byte>, size: nat, blocks: nat, t: Track)
    requires TrackShape(t, size, blocks) && blocks * size <= |file|
    ensures t.End() <= blocks && t.End() * size <= blocks * size && Fits(file, size, t)
    ensures t.First() * size + |t.flags| * size == t.End() * size
  {
    Monotone(size, t.End(), blocks);
  }

  lemma CachedSectorIsImage(t: Track, image: seq<Byte>, size: nat, k: nat)
    requires HoldsImage(t, image, size) && t.First() <= k < t.End()
    ensures HasSector(t.buffer, size, k - t.First()) && HasSector(image, size, k)
    ensures Sector(t.buffer, size, k - t.First()) == Sector(image, size, k)
  {
    SectorOfSlice(image, size, t.First(), |t.flags|, k - t.First());
  }

  lemma ImageIsUpToDate(t: Track, image: seq<Byte>, size: nat)
    requires HoldsImage(t, image, size) && Fits(image, size, t)
    ensures UpToDate(image, size, t)
  {
    forall i | 0 <= i < |t.flags| && t.flags[i]
      ensures HasSector(image, size, t.First() + i) && HasSector(t.buffer, size, i)
      ensures Sector(image, size, t.First() + i) == Sector(t.buffer, size, i)
    {
      CachedSectorIsImage(t, image, size, t.First() + i);
    }
  }

  // ---- Writing a sector of a cached track ----

  function WriteTrack(t: Track, size: nat, j: nat, data: seq<Byte>): Track
    requires j < |t.flags| && |data| == size && HasSector(t.buffer, size, j)
  {
    t.(buffer := WriteAt(t.buffer, j * size, data),
       flags := t.flags[j := t.flags[j] || data != Sector(t.buffer, size, j)])
  }

  lemma WrittenTrackShows(t: Track, size: nat, j: nat, data: seq<Byte>, after: Track)
    requires j < |t.flags| && |data| == size && HasSector(t.buffer, size, j) && after.number == t.number
    requires after.buffer == WriteAt(t.buffer, j * size, data)
    requires after.flags == t.flags[j := t.flags[j] || data != Sector(t.buffer, size, j)]
    ensures after == WriteTrack(t, size, j, data)
  {
  }

  lemma SliceOfWrite(image: seq<Byte>, from: nat, to: nat, offset: nat, data: seq<Byte>)
    requires from <= to <= |image| && from + offset + |data| <= to
    ensures WriteAt(image, from + offset, data)[from..to] == WriteAt(image[from..to], offset, data)
  {
  }

  lemma SliceOutsideWrite(image: seq<Byte>, from: nat, to: nat, offset: nat, data: seq<Byte>)
    requires from <= to <= |image| && offset + |data| <= |image|
    requires offset + |data| <= from || to <= offset
    ensures WriteAt(image, offset, data)[from..to] == image[from..to]
  {
  }

  lemma WrittenTrackHoldsImage(t: Track, image: seq<Byte>, size: nat, j: nat, data: seq<Byte>)
    requires HoldsImage(t, image, size) && j < |t.flags| && |data| == size && HasSector(t.buffer, size, j)
    ensures (t.First() + j) * size + size <= |image|
    ensures HoldsImage(WriteTrack(t, size, j, data), WriteAt(image, (t.First() + j) * size, data), size)
  {
    assert (t.First() + j) * size == t.First() * size + j * size;
    SectorsInOrder(size, j, |t.flags|);
    var from := t.First() * size;
    SliceOfWrite(image, from, from + |t.flags| * size, j * size, data);
  }

  lemma OtherTrackHoldsImage(t: Track, image: seq<Byte>, size: nat, k: nat, data: seq<Byte>)
    requires HoldsImage(t, image, size) && |data| == size && HasSector(image, size, k)
    requires k < t.First() || t.End() <= k
    ensures HoldsImage(t, WriteAt(image, k * size, data), size)
  {
    OffsetIsSector(size, t, |t.flags|);
    if k < t.First() {
      SectorsInOrder(size, k, t.First());
    } else {
      Monotone(size, t.End(), k);
    }
    var from := t.First() * size;
    SliceOutsideWrite(image, from, from + |t.flags| * size, k * size, data);
  }

  lemma SectorAfterSectorWrite(image: seq<Byte>, size: nat, k: nat, data: seq<Byte>, m: nat)
    requires |data| == size && HasSector(image, size, k) && HasSector(image, size, m)
    ensures Sector(WriteAt(image, k * size, data), size, m) == if m == k then data else Sector(image, size, m)
  {
    assert 1 * size == size;
    if m == k {
      SectorInsideWrite(image, size, k, 1, data, m);
      assert Sector(data, size, 0) == data;
    } else {
      SectorOutsideWrite(image, size, k, 1, data, m);
    }
  }

  ghost predicate DirtyElsewhere(slots: seq<Slot>, i: nat, k: nat) {
    exists j :: Holds(slots, j) && j != i && DirtyAt(slots[j].track.value, k)
  }

  lemma DirtyIsHereOrElsewhere(slots: seq<Slot>, i: nat, k: nat)
    requires i < |slots|
    ensures Dirty(slots, k) <==> (Holds(slots, i) && DirtyAt(slots[i].track.value, k)) || DirtyElsewhere(slots, i, k)
  {
  }

  lemma ElsewhereIsUnchanged(slots: seq<Slot>, i: nat, slot: Slot, k: nat)
    requires i < |slots|
    ensures DirtyElsewhere(slots[i := slot], i, k) == DirtyElsewhere(slots, i, k)
  {
    var after := slots[i := slot];
    if j :| Holds(slots, j) && j != i && DirtyAt(slots[j].track.value, k) {
      assert Holds(after, j) && DirtyAt(after[j].track.value, k);
    }
    if j :| Holds(after, j) && j != i && DirtyAt(after[j].track.value, k) {
      assert Holds(slots, j) && DirtyAt(slots[j].track.value, k);
    }
  }

  lemma DirtyAfterUpdate(slots: seq<Slot>, i: nat, slot: Slot, k: nat)
    requires i < |slots|
    ensures Dirty(slots[i := slot], k) <==>
            (slot.track.Some? && DirtyAt(slot.track.value, k)) || DirtyElsewhere(slots, i, k)
  {
    ElsewhereIsUnchanged(slots, i, slot, k);
    DirtyIsHereOrElsewhere(slots[i := slot], i, k);
  }

  lemma ShapesAfterUpdate(slots: seq<Slot>, size: nat, blocks: nat, i: nat, slot: Slot)
    requires SlotShapes(slots, size, blocks) && i < |slots|
    requires slot.track.Some? ==> TrackShape(slot.track.value, size, blocks)
    requires slot.track.Some? ==>
               forall j :: Holds(slots, j) && j != i ==> slots[j].track.value.number != slot.track.value.number
    ensures SlotShapes(slots[i := slot], size, blocks)
  {
    var after := slots[i := slot];
    assert forall j :: Holds(after, j) && j != i ==> Holds(slots, j) && after[j] == slots[j];
  }

  // Writing into the cache changes the image in that sector and nowhere else.
  lemma WriteKeepsCoherent(file: seq<Byte>, image: seq<Byte>, size: nat, blocks: nat, slots: seq<Slot>,
                           i: nat, j: nat, data: seq<Byte>)
    requires Coherent(file, image, size, blocks, slots) && Holds(slots, i)
    requires var t := slots[i].track.value; j < |t.flags| && |data| == size && HasSector(t.buffer, size, j)
    ensures var t := slots[i].track.value;
            HasSector(image, size, t.First() + j)
            && Coherent(file, WriteAt(image, (t.First() + j) * size, data), size, blocks,
                        slots[i := slots[i].(track := Some(WriteTrack(t, size, j, data)))])
  {
    var t := slots[i].track.value;
    var k := t.First() + j;
    var slot := slots[i].(track := Some(WriteTrack(t, size, j, data)));
    var after := slots[i := slot];
    CachedSectorIsImage(t, image, size, k);
    TrackFits(image, size, blocks, t);
    SectorsInOrder(size, k, t.End());
    TailOutsideWrite(image, k * size, data, blocks * size);
    var image2 := WriteAt(image, k * size, data);
    ShapesAfterUpdate(slots, size, blocks, i, slot);
    forall m | Holds(after, m)
      ensures HoldsImage(after[m].track.value, image2, size)
    {
      if m == i {
        WrittenTrackHoldsImage(t, image, size, j, data);
      } else {
        assert Holds(slots, m);
        OtherTrackHoldsImage(slots[m].track.value, image, size, k, data);
      }
    }
    forall m: nat | m < blocks && !Dirty(after, m)
      ensures SameSector(file, image2, size, m)
    {
      WriteKeepsCleanSector(file, image, size, blocks, slots, i, j, data, m);
    }
  }

  lemma WriteKeepsCleanSector(file: seq<Byte>, image: seq<Byte>, size: nat, blocks: nat, slots: seq<Slot>,
                              i: nat, j: nat, data: seq<Byte>, m: nat)
    requires Coherent(file, image, size, blocks, slots) && Holds(slots, i)
    requires var t := slots[i].track.value; j < |t.flags| && |data| == size && HasSector(t.buffer, size, j)
    requires var t := slots[i].track.value;
             m < blocks && HasSector(image, size, t.First() + j)
             && !Dirty(slots[i := slots[i].(track := Some(WriteTrack(t, size, j, data)))], m)
    ensures SameSector(file, WriteAt(image, (slots[i].track.value.First() + j) * size, data), size, m)
  {
    var t := slots[i].track.value;
    var k := t.First() + j;
    var slot := slots[i].(track := Some(WriteTrack(t, size, j, data)));
    DirtyAfterUpdate(slots, i, slot, m);
    DirtyIsHereOrElsewhere(slots, i, m);
    assert !DirtyAt(slot.track.value, m);
    assert DirtyAt(t, m) ==> DirtyAt(slot.track.value, m);
    assert SameSector(file, image, size, m);
    SectorAfterSectorWrite(image, size, k, data, m);
    if m == k {
      CachedSectorIsImage(t, image, size, k);
    }
  }

  // ---- Saving ----

  function CleanTrack(t: Track): Track {
    t.(flags := seq(|t.flags|, _ => false))
  }

  lemma SaveKeepsCoherent(file: seq<Byte>, image: seq<Byte>, size: nat, blocks: nat, slots: seq<Slot>, i: nat)
    requires Coherent(file, image, size, blocks, slots) && Holds(slots, i)
    ensures var t := slots[i].track.value;
            Fits(file, size, t)
            && Coherent(SaveFrom(file, size, t, 0), image, size, blocks,
                        slots[i := slots[i].(track := Some(CleanTrack(t)))])
  {
    var t := slots[i].track.value;
    TrackFits(file, size, blocks, t);
    var saved := SaveFrom(file, size, t, 0);
    var slot := slots[i].(track := Some(CleanTrack(t)));
    var after := slots[i := slot];
    TailAfterSave(file, size, t, 0, blocks * size);
    ShapesAfterUpdate(slots, size, blocks, i, slot);
    forall m | Holds(after, m)
      ensures HoldsImage(after[m].track.value, image, size)
    {
      assert Holds(slots, m);
    }
    forall k: nat | k < blocks && !Dirty(after, k)
      ensures SameSector(saved, image, size, k)
    {
      SaveKeepsCleanSector(file, image, size, blocks, slots, i, k);
    }
  }

  lemma SaveKeepsCleanSector(file: seq<Byte>, image: seq<Byte>, size: nat, blocks: nat, slots: seq<Slot>, i: nat,
                             k: nat)
    requires Coherent(file, image, size, blocks, slots) && Holds(slots, i)
    requires Fits(file, size, slots[i].track.value)
    requires k < blocks && !Dirty(slots[i := slots[i].(track := Some(CleanTrack(slots[i].track.value)))], k)
    ensures SameSector(SaveFrom(file, size, slots[i].track.value, 0), image, size, k)
  {
    var t := slots[i].track.value;
    DirtyAfterUpdate(slots, i, slots[i].(track := Some(CleanTrack(t))), k);
    DirtyIsHereOrElsewhere(slots, i, k);
    LowerSectorsExist(file, size, blocks, k);
    SectorAfterSave(file, size, t, 0, k);
    if DirtyAt(t, k) {
      CachedSectorIsImage(t, image, size, k);
    }
  }

  lemma SectorOfTail(a: seq<Byte>, b: seq<Byte>, size: nat, n: nat, k: nat)
    requires |a| == |b| && n * size <= |a| && a[n * size..] == b[n * size..] && n <= k && HasSector(a, size, k)
    ensures SameSector(a, b, size, k)
  {
    Monotone(size, n, k);
    var from := n * size;
    assert forall p :: from <= p < |a| ==> a[p] == a[from..][p - from] && b[p] == b[from..][p - from];
  }

  // A failed save leaves the image as it was, even though part of the file has been rewritten.
  lemma FailedSaveKeepsCoherent(file: seq<Byte>, left: seq<Byte>, image: seq<Byte>, size: nat, blocks: nat,
                                slots: seq<Slot>, i: nat)
    requires Coherent(file, image, size, blocks, slots) && Holds(slots, i)
    requires SameOutsideDirty(file, left, size, slots[i].track.value)
    ensures Coherent(left, image, size, blocks, slots)
  {
    var t := slots[i].track.value;
    TrackFits(file, size, blocks, t);
    var from, to := t.End() * size, blocks * size;
    assert file[to..] == file[from..][to - from..] && left[to..] == left[from..][to - from..];
    forall k: nat | k < blocks && !Dirty(slots, k)
      ensures SameSector(left, image, size, k)
    {
      assert SameSector(file, image, size, k);
      if k < t.End() {
        DirtyIsHereOrElsewhere(slots, i, k);
      } else {
        SectorOfTail(file, left, size, t.End(), k);
      }
    }
  }

  // ---- Loading and evicting ----

  predicate IsClean(t: Track) {
    forall j :: 0 <= j < |t.flags| ==> !t.flags[j]
  }

  lemma NoSectorDirty(slots: seq<Slot>, size: nat, blocks: nat, t: Track, k: nat)
    requires SlotShapes(slots, size, blocks)
    requires forall j :: Holds(slots, j) ==> slots[j].track.value.number != t.number
    requires t.First() <= k < t.First() + 256
    ensures !Dirty(slots, k)
  {
  }

  // Loading a track that is not cached shows the same image as before.
  lemma LoadKeepsCoherent(file: seq<Byte>, image: seq<Byte>, size: nat, blocks: nat, slots: seq<Slot>,
                          i: nat, t: Track, serial: nat)
    requires Coherent(file, image, size, blocks, slots) && i < |slots| && slots[i].track.None?
    requires TrackShape(t, size, blocks) && IsClean(t) && Fits(file, size, t)
    requires t.buffer == file[Offset(size, t, 0)..Offset(size, t, |t.flags|)]
    requires forall j :: Holds(slots, j) ==> slots[j].track.value.number != t.number
    ensures Coherent(file, image, size, blocks, slots[i := Slot(Some(t), serial)])
  {
    var slot := Slot(Some(t), serial);
    var after := slots[i := slot];
    ShapesAfterUpdate(slots, size, blocks, i, slot);
    LoadedTrackHoldsImage(file, image, size, blocks, slots, t);
    forall m | Holds(after, m)
      ensures HoldsImage(after[m].track.value, image, size)
    {
      assert m == i || Holds(slots, m);
    }
    forall k: nat | k < blocks && !Dirty(after, k)
      ensures SameSector(file, image, size, k)
    {
      DirtyAfterUpdate(slots, i, slot, k);
      DirtyIsHereOrElsewhere(slots, i, k);
    }
  }

  lemma LoadedTrackHoldsImage(file: seq<Byte>, image: seq<Byte>, size: nat, blocks: nat, slots: seq<Slot>, t: Track)
    requires Coherent(file, image, size, blocks, slots)
    requires TrackShape(t, size, blocks) && Fits(file, size, t)
    requires t.buffer == file[Offset(size, t, 0)..Offset(size, t, |t.flags|)]
    requires forall j :: Holds(slots, j) ==> slots[j].track.value.number != t.number
    ensures HoldsImage(t, image, size)
  {
    var n, from := |t.flags|, t.First() * size;
    OffsetIsSector(size, t, n);
    assert Offset(size, t, 0) == from;
    var a, b := file[from..from + n * size], image[from..from + n * size];
    forall j: nat | j < n
      ensures HasSector(a, size, j) && HasSector(b, size, j) && Sector(a, size, j) == Sector(b, size, j)
    {
      NoSectorDirty(slots, size, blocks, t, t.First() + j);
      assert SameSector(file, image, size, t.First() + j);
      SectorOfSlice(file, size, t.First(), n, j);
      SectorOfSlice(image, size, t.First(), n, j);
    }
    SameSectorsSameBytes(a, b, size, n);
    assert a[..n * size] == a && b[..n * size] == b;
  }

  lemma EvictKeepsCoherent(file: seq<Byte>, image: seq<Byte>, size: nat, blocks: nat, slots: seq<Slot>, i: nat)
    requires Coherent(file, image, size, blocks, slots) && Holds(slots, i) && IsClean(slots[i].track.value)
    ensures Coherent(file, image, size, blocks, slots[i := slots[i].(track := None)])
  {
    var slot := slots[i].(track := None);
    var after := slots[i := slot];
    ShapesAfterUpdate(slots, size, blocks, i, slot);
    forall m | Holds(after, m)
      ensures HoldsImage(after[m].track.value, image, size)
    {
      assert Holds(slots, m);
    }
    forall k: nat | k < blocks && !Dirty(after, k)
      ensures SameSector(file, image, size, k)
    {
      DirtyAfterUpdate(slots, i, slot, k);
      DirtyIsHereOrElsewhere(slots, i, k);
    }
  }

  lemma SerialsDoNotMatter(slots: seq<Slot>, other: seq<Slot>, k: nat)
    requires |slots| == |other| && forall i :: 0 <= i < |slots| ==> slots[i].track == other[i].track
    ensures Dirty(slots, k) ==> Dirty(other, k)
  {
    if Dirty(slots, k) {
      var i :| Holds(slots, i) && DirtyAt(slots[i].track.value, k);
      assert Holds(other, i) && DirtyAt(other[i].track.value, k);
    }
  }

  lemma SerialKeepsCoherent(file: seq<Byte>, image: seq<Byte>, size: nat, blocks: nat, slots: seq<Slot>,
                            other: seq<Slot>)
    requires Coherent(file, image, size, blocks, slots)
    requires |slots| == |other| && forall i :: 0 <= i < |slots| ==> slots[i].track == other[i].track
    ensures Coherent(file, image, size, blocks, other)
  {
    assert forall i :: Holds(other, i) ==> Holds(slots, i);
    forall k: nat | k < blocks && !Dirty(other, k)
      ensures SameSector(file, image, size, k)
    {
      SerialsDoNotMatter(slots, other, k);
    }
  }

  lemma NothingDirty(slots: seq<Slot>, k: nat)
    requires forall i :: Holds(slots, i) ==> IsClean(slots[i].track.value)
    ensures !Dirty(slots, k)
  {
  }

  // With nothing left to save, the file is the image.
  lemma CleanCacheIsFile(file: seq<Byte>, image: seq<Byte>, size: nat, blocks: nat, slots: seq<Slot>)
    requires Coherent(file, image, size, blocks, slots)
    requires forall i :: Holds(slots, i) ==> IsClean(slots[i].track.value)
    ensures file == image
  {
    forall k: nat | k < blocks
      ensures SameSector(file, image, size, k)
    {
      NothingDirty(slots, k);
    }
    AllSectorsSame(file, image, size, blocks);
  }

  lemma AllSectorsSame(a: seq<Byte>, b: seq<Byte>, size: nat, blocks: nat)
    requires SameTail(a, b, blocks * size)
    requires forall k: nat :: k < blocks ==> SameSector(a, b, size, k)
    ensures a == b
  {
    forall k: nat | k < blocks
      ensures HasSector(a, size, k) && HasSector(b, size, k) && Sector(a, size, k) == Sector(b, size, k)
    {
      assert SameSector(a, b, size, k);
    }
    SameSectorsSameFile(a, b, size, blocks);
  }
}
