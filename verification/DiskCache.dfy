// The write-back cache of 16 tracks in front of an image file.
module DiskCaches {
  import opened Basics
  import opened FlatImage
  import opened TrackModel
  import opened CacheModel
  import opened DiskTracks
  import opened Recency

  const CACHE_MAX: nat := 16
  const SERIAL_LIMIT: nat := 0x1_0000_0000

  datatype CacheData = CacheData(disktrk: DiskTrack?, serial: nat)

  // The outcome of looking for a track: the slot it is in now, a failed save or load, or the use of an
  // empty slot as if it held a track.
  datatype Access = At(slot: nat) | NotAvailable | NullTrack

  // There is a slot without a track.
  predicate HasRoom(slots: seq<Slot>) {
    exists i :: 0 <= i < |slots| && slots[i].track.None?
  }

  class DiskCache {
    const file: ImageFile
    const sectorSize: nat
    const blocks: nat
    const cache: array<CacheData>
    var serial: nat

    ghost var slots: seq<Slot>     // the cache as a value
    ghost var image: seq<Byte>     // the image a host sees
    ghost var history: seq<nat>    // the tracks accessed so far

    ghost function Tracks(): set<object?>
      reads cache
    {
      set i | 0 <= i < cache.Length :: cache[i].disktrk
    }

    ghost predicate SlotAgrees(i: int)
      requires 0 <= i < cache.Length && i < |slots|
      reads this`slots, cache, cache[i].disktrk
    {
      var d := cache[i].disktrk;
      && slots[i].serial == cache[i].serial
      && (d == null ==> slots[i].track.None?)
      && (d != null ==> slots[i].track == Some(d.View()) && d.Loaded() && d.sectorSize == sectorSize)
    }

    // The slots are the cache.
    ghost predicate Mirrored()
      reads this`slots, cache, Tracks()
    {
      && cache.Length == CACHE_MAX == |slots|
      && (forall i :: 0 <= i < CACHE_MAX ==> SlotAgrees(i))
      && (forall i, j :: 0 <= i < j < CACHE_MAX && cache[i].disktrk != null ==> cache[i].disktrk != cache[j].disktrk)
    }

    // Everything but the order of the serial numbers.
    ghost predicate Consistent()
      reads this`slots, this`serial, this`image, file`bytes, cache, Tracks()
    {
      && Mirrored()
      && serial < SERIAL_LIMIT
      && Coherent(file.bytes, image, sectorSize, blocks, slots)
    }

    // As long as no file access has failed and the serial number has not wrapped around, the cached tracks are the
    // most recently used ones, and the serial numbers tell their order.
    ghost predicate Valid()
      reads this, file, cache, Tracks()
    {
      && Consistent()
      && (file.failures == 0 && |history| < SERIAL_LIMIT ==> serial == |history| && RecentInOrder(slots, history))
    }

    // Sixteen tracks are cached: a track is, exactly if fewer than sixteen others have been used since its last access.
    lemma CachedTracksAreRecent(p: nat)
      requires Valid() && file.failures == 0 && |history| < 0x1_0000_0000 && LastAccess(history, p)
      ensures HeldSomewhere(slots, history[p]) <==> |SetOf(history[p + 1..])| < 16
    {
      hide Coherent;
      RecentMeansFewSince(history, p, 16);
    }

    // The state in the middle of an access, behind UpdateSerial.
    ghost predicate Pending()
      reads this, file, cache, Tracks()
    {
      && Consistent()
      && (file.failures == 0 && |history| + 1 < SERIAL_LIMIT ==>
          serial == |history| + 1 && RecentInOrder(slots, history))
    }

    constructor (f: ImageFile, size: nat, sectors: nat)
      requires sectors * size <= |f.bytes|
      ensures HasRoom(slots) && f.failures == old(f.failures) && f.health == old(f.health)
      ensures Valid() && fresh(cache) && Tracks() - {null} == {} && file == f && sectorSize == size && blocks == sectors
      ensures image == f.bytes && history == [] && f.bytes == old(f.bytes)
    {
      file, sectorSize, blocks := f, size, sectors;
      cache := new CacheData[CACHE_MAX](_ => CacheData(null, 0));
      serial := 0;
      slots := seq(CACHE_MAX, _ => Slot(None, 0));
      image, history := f.bytes, [];
      new;
      forall k: nat | k < blocks
        ensures SameSector(file.bytes, image, sectorSize, k)
      {
        LowerSectorsExist(image, sectorSize, blocks, k);
      }
      HeldCountBounds(slots);
      EmptySlots(slots);
    }

    // The slot that holds a track, or -1.
    method FindCached(track: nat) returns (slot: int)
      requires Consistent()
      ensures -1 <= slot < CACHE_MAX
      ensures slot >= 0 ==> Holds(slots, slot) && slots[slot].track.value.number == track
      ensures slot == -1 ==> forall i :: Holds(slots, i) ==> slots[i].track.value.number != track
    {
      slot := 0;
      while slot < CACHE_MAX
        invariant 0 <= slot <= CACHE_MAX
        invariant forall i :: 0 <= i < slot && Holds(slots, i) ==> slots[i].track.value.number != track
      {
        assert SlotAgrees(slot);
        if cache[slot].disktrk != null && cache[slot].disktrk.trackNumber == track {
          return;
        }
        slot := slot + 1;
      }
      slot := -1;
    }

    ghost predicate SavedOrNot(ok: bool, before: seq<Byte>, after: seq<Byte>, t: Track) {
      && (ok ==> Fits(before, sectorSize, t) && after == SaveFrom(before, sectorSize, t, 0))
      && (!ok ==> SameOutsideDirty(before, after, sectorSize, t))
    }

    method SaveTrack(i: nat) returns (ok: bool)
      requires Mirrored() && Holds(slots, i) && Fits(file.bytes, sectorSize, slots[i].track.value)
      modifies this`slots, file, cache[i].disktrk
      ensures file.failures == old(file.failures) + if ok then 0 else 1
      ensures Mirrored()
      ensures SavedOrNot(ok, old(file.bytes), file.bytes, old(slots)[i].track.value)
      ensures file.health == old(file.health)
      ensures UpToDate(old(file.bytes), sectorSize, old(slots)[i].track.value) || file.health.Broken? ==>
                file.bytes == old(file.bytes)
      ensures slots == if ok then old(slots)[i := old(slots)[i].(track := Some(CleanTrack(old(slots)[i].track.value)))]
                       else old(slots)
    {
      assert SlotAgrees(i);
      var d := cache[i].disktrk;
      ghost var t := d.View();
      ok := d.Save(file);
      if ok {
        assert d.View() == CleanTrack(t);
        slots := slots[i := slots[i].(track := Some(d.View()))];
      }
      forall j | 0 <= j < CACHE_MAX && j != i
        ensures SlotAgrees(j)
      {
        assert old(SlotAgrees(j));
      }
    }

    // Save the track of one slot. A failed save changes neither the image nor the cache. A file that is the image
    // stays it.
    method SaveSlot(i: nat) returns (ok: bool)
      requires Consistent() && Holds(slots, i)
      modifies this`slots, file, cache[i].disktrk
      ensures file.failures == old(file.failures) + if ok then 0 else 1
      ensures Consistent()
      ensures slots == if ok then old(slots)[i := old(slots)[i].(track := Some(CleanTrack(old(slots)[i].track.value)))]
                       else old(slots)
      ensures file.health == old(file.health)
      ensures old(file.bytes) == image || file.health.Broken? ==> file.bytes == old(file.bytes)
    {
      TrackFits(file.bytes, sectorSize, blocks, slots[i].track.value);
      if file.bytes == image {
        ImageIsUpToDate(slots[i].track.value, image, sectorSize);
      }
      ok := SaveTrack(i);
      if ok {
        SaveKeepsCoherent(old(file.bytes), image, sectorSize, blocks, old(slots), i);
      } else {
        FailedSaveKeepsCoherent(old(file.bytes), file.bytes, image, sectorSize, blocks, slots, i);
      }
    }

    ghost predicate InCache(d: DiskTrack?)
      reads cache
    {
      exists i :: 0 <= i < cache.Length && cache[i].disktrk == d
    }

    // A track object with the content of a track, either a new one or the given one.
    method LoadTrack(track: nat, reused: DiskTrack?) returns (d: DiskTrack, ok: bool)
      requires Consistent() && 256 * track < blocks
      requires reused != null ==> !InCache(reused)
      modifies reused, file`failures
      ensures file.failures == old(file.failures) + if ok then 0 else 1
      ensures file.health.Sound? ==> ok
      ensures Consistent() && !InCache(d) && (d == reused || fresh(d))
      ensures ok ==> d.Loaded() && d.sectorSize == sectorSize && TrackShape(d.View(), sectorSize, blocks)
                     && d.View().number == track && IsClean(d.View()) && Fits(file.bytes, sectorSize, d.View())
                     && d.buffer == file.bytes[Offset(sectorSize, d.View(), 0)
                                               ..Offset(sectorSize, d.View(), |d.View().flags|)]
    {
      // Get the number of sectors on this track
      var sectors := blocks - 256 * track;
      if sectors > 256 {
        sectors := 256;
      }
      if reused == null {
        d := new DiskTrack();
      } else {
        d := reused;
      }
      d.Init(track, sectorSize, sectors);
      Monotone(sectorSize, 256 * track + sectors, blocks);
      ok := d.Load(file);
      assert forall i :: 0 <= i < CACHE_MAX ==> old(SlotAgrees(i));
    }

    method Install(index: nat, d: DiskTrack)
      requires Mirrored() && index < CACHE_MAX && cache[index].disktrk == null
      requires d.Loaded() && d.sectorSize == sectorSize && !InCache(d)
      modifies this`slots, cache
      ensures Mirrored()
      ensures slots == old(slots)[index := Slot(Some(d.View()), old(slots)[index].serial)]
      ensures cache[..] == old(cache[..])[index := CacheData(d, old(cache[index].serial))]
    {
      assert SlotAgrees(index);
      cache[index] := cache[index].(disktrk := d);
      slots := slots[index := Slot(Some(d.View()), slots[index].serial)];
      forall j | 0 <= j < CACHE_MAX && j != index
        ensures SlotAgrees(j)
      {
        assert old(SlotAgrees(j));
      }
    }

    // Load a track into an empty slot, reusing the track object if there is one.
    method Load(index: nat, track: nat, reused: DiskTrack?) returns (ok: bool)
      requires Consistent() && index < CACHE_MAX && cache[index].disktrk == null
      requires 256 * track < blocks
      requires forall i :: Holds(slots, i) ==> slots[i].track.value.number != track
      requires reused != null ==> !InCache(reused)
      modifies this`slots, cache, reused, file`failures
      ensures file.failures == old(file.failures) + if ok then 0 else 1
      ensures file.health.Sound? ==> ok
      ensures Consistent()
      ensures !ok ==> slots == old(slots) && cache[..] == old(cache[..])
      ensures ok ==>
                && Holds(slots, index) && slots[index].track.value.number == track
                && slots == old(slots)[index := Slot(slots[index].track, old(slots)[index].serial)]
                && cache[..] == old(cache[..])[index := cache[index]]
                && (cache[index].disktrk == reused || fresh(cache[index].disktrk))
    {
      var d;
      d, ok := LoadTrack(track, reused);
      if ok {
        // Allocation successful
        assert SlotAgrees(index);
        LoadKeepsCoherent(file.bytes, image, sectorSize, blocks, slots, index, d.View(), slots[index].serial);
        Install(index, d);
      }
    }

    // Take the track object out of a slot whose track has been saved.
    method Release(index: nat) returns (d: DiskTrack)
      requires Consistent() && Holds(slots, index) && IsClean(slots[index].track.value)
      modifies this`slots, cache
      ensures Consistent() && !InCache(d) && d == old(cache[index].disktrk) && cache[index].disktrk == null
      ensures slots == old(slots)[index := old(slots)[index].(track := None)]
      ensures cache[..] == old(cache[..])[index := old(cache[index]).(disktrk := null)]
    {
      assert SlotAgrees(index);
      d := cache[index].disktrk;
      EvictKeepsCoherent(file.bytes, image, sectorSize, blocks, slots, index);
      cache[index] := cache[index].(disktrk := null);
      slots := slots[index := slots[index].(track := None)];
      forall j | 0 <= j < CACHE_MAX && j != index
        ensures SlotAgrees(j)
      {
        assert old(SlotAgrees(j));
      }
    }

    method SetSerial(index: nat, s: nat)
      requires Consistent() && index < CACHE_MAX
      modifies this`slots, cache
      ensures Consistent() && Tracks() == old(Tracks())
      ensures slots == old(slots)[index := old(slots)[index].(serial := s)]
      ensures cache[..] == old(cache[..])[index := old(cache[index]).(serial := s)]
    {
      assert SlotAgrees(index);
      ghost var after := slots[index := slots[index].(serial := s)];
      SerialKeepsCoherent(file.bytes, image, sectorSize, blocks, slots, after);
      cache[index] := cache[index].(serial := s);
      slots := after;
      assert forall j :: 0 <= j < CACHE_MAX ==> cache[j].disktrk == old(cache[j].disktrk);
      assert forall d :: d in old(Tracks()) ==> d in Tracks();
      forall j | 0 <= j < CACHE_MAX && j != index
        ensures SlotAgrees(j)
      {
        assert old(SlotAgrees(j));
      }
    }

    // Load a track into the first empty slot that takes it; -1 if there is none.
    method FillEmptySlot(track: nat) returns (slot: int)
      requires Consistent() && 256 * track < blocks
      requires forall i :: Holds(slots, i) ==> slots[i].track.value.number != track
      modifies this`slots, cache, file`failures
      ensures file.failures >= old(file.failures)
      ensures file.health.Sound? ==> file.failures == old(file.failures)
      ensures Consistent() && -1 <= slot < CACHE_MAX && fresh(Tracks() - old(Tracks()) - {null})
      ensures slot == -1 && file.failures == old(file.failures) ==> forall i :: 0 <= i < CACHE_MAX ==>
              slots[i].track.Some?
      ensures slot == -1 ==> slots == old(slots) && cache[..] == old(cache[..])
      ensures slot >= 0 ==>
                && old(slots)[slot].track.None? && Holds(slots, slot) && slots[slot].track.value.number == track
                && slots == old(slots)[slot := Slot(slots[slot].track, serial)]
                && cache[..] == old(cache[..])[slot := cache[slot]] && fresh(cache[slot].disktrk)
    {
      slot := 0;
      while slot < CACHE_MAX
        invariant 0 <= slot <= CACHE_MAX && Consistent()
        invariant slots == old(slots) && cache[..] == old(cache[..])
        invariant file.failures >= old(file.failures)
        invariant file.health.Sound? ==> file.failures == old(file.failures)
        invariant file.failures == old(file.failures) ==> forall i :: 0 <= i < slot ==> slots[i].track.Some?
      {
        assert SlotAgrees(slot);
        if cache[slot].disktrk == null {
          var ok := Load(slot, track, null);
          if ok {
            assert SlotAgrees(slot);
            SetSerial(slot, serial);
            assert cache[..][slot] == cache[slot];
            return;
          }
        }
        slot := slot + 1;
      }
      slot := -1;
    }

    // The first slot with the smallest serial number.
    method FindOldest() returns (slot: nat)
      requires Mirrored()
      ensures slot < CACHE_MAX && forall i :: 0 <= i < CACHE_MAX ==> slots[slot].serial <= slots[i].serial
    {
      slot := 0;
      for i := 1 to CACHE_MAX
        invariant slot < CACHE_MAX
        invariant forall j :: 0 <= j < i ==> slots[slot].serial <= slots[j].serial
      {
        assert SlotAgrees(i) && SlotAgrees(slot);
        if cache[i].serial < cache[slot].serial {
          slot := i;
        }
      }
    }

    // Save the oldest track and load another one in its place.
    method ReplaceOldest(track: nat) returns (a: Access)
      requires Consistent() && 256 * track < blocks
      requires forall i :: Holds(slots, i) ==> slots[i].track.value.number != track
      modifies this`slots, file, cache, Tracks()
      ensures Consistent() && fresh(Tracks() - old(Tracks()) - {null})
      ensures file.failures >= old(file.failures)
      ensures a.NotAvailable? ==> file.failures > old(file.failures)
      ensures a.NullTrack? ==> exists i :: 0 <= i < CACHE_MAX && old(slots)[i].track.None?
      ensures a.At? ==>
                && Oldest(old(slots), a.slot) && Holds(slots, a.slot)
                && slots[a.slot].track.value.number == track
                && slots == old(slots)[a.slot := Slot(slots[a.slot].track, serial)]
    {
      var c := FindOldest();
      assert SlotAgrees(c);
      if cache[c].disktrk == null {
        return NullTrack;
      }
      var ok := SaveSlot(c);
      if !ok {
        return NotAvailable;
      }
      var d := Release(c);
      ok := Load(c, track, d);
      if !ok {
        return NotAvailable;
      }
      SetSerial(c, serial);
      return At(c);
    }

    method UpdateSerial()
      requires Valid()
      modifies this`serial, this`slots, cache
      ensures Pending() && Tracks() == old(Tracks()) && (old(HasRoom(slots)) ==> HasRoom(slots))
      ensures serial == (old(serial) + 1) % 0x1_0000_0000
      ensures if serial != 0 then slots == old(slots) else forall i :: 0 <= i < |slots| ==> slots[i].serial == 0
    {
      hide Coherent;
      hide RecentInOrder;
      // Update and do nothing except 0
      serial := (serial + 1) % SERIAL_LIMIT;
      if serial != 0 {
        return;
      }
      // Clear serial of all caches
      var i := 0;
      while i < CACHE_MAX
        invariant 0 <= i <= CACHE_MAX && Consistent() && Tracks() == old(Tracks())
        invariant forall j :: 0 <= j < CACHE_MAX ==> slots[j].track == old(slots)[j].track
        invariant serial == 0 && forall j :: 0 <= j < i ==> slots[j].serial == 0
      {
        SetSerial(i, 0);
        i := i + 1;
      }
    }

    // The slot that holds a track from now on. Without a failed file access there always is one.
    method AssignTrack(track: nat) returns (a: Access)
      requires Pending() && 256 * track < blocks
      modifies this`slots, this`history, file, cache, Tracks()
      ensures Valid() && fresh(Tracks() - old(Tracks()) - {null})
      ensures history == old(history) + [track] && file.failures >= old(file.failures)
      ensures file.failures == old(file.failures) ==> a.At?
      ensures file.failures == old(file.failures) && old(HasRoom(slots)) ==> file.bytes == old(file.bytes)
      ensures old(file.health.Sound? && HasRoom(slots)) ==> file.failures == old(file.failures)
      ensures a.At? ==> Holds(slots, a.slot) && slots[a.slot].track.value.number == track
    {
      // Check if it is already assigned
      var i := FindCached(track);
      if i >= 0 {
        HitTrack(track, i);
        return At(i);
      }
      a := MissTrack(track);
    }

    method HitTrack(track: nat, i: nat)
      requires Pending() && Holds(slots, i) && slots[i].track.value.number == track
      modifies this`slots, this`history, cache
      ensures Valid() && Tracks() == old(Tracks())
      ensures history == old(history) + [track]
      ensures Holds(slots, i) && slots[i].track.value.number == track
    {
      hide RecentInOrder;
      ghost var after := slots[i := slots[i].(serial := serial)];
      ghost var ordered := file.failures == 0 && |history| + 1 < SERIAL_LIMIT;
      if ordered {
        HitFollowsHistory(slots, sectorSize, blocks, history, i);
        assert RecentInOrder(after, history + [track]);
      }
      SetSerial(i, serial);
      assert slots == after;
      history := history + [track];
      assert ordered ==> RecentInOrder(slots, history);
    }

    method MissTrack(track: nat) returns (a: Access)
      requires Pending() && 256 * track < blocks
      requires forall i :: Holds(slots, i) ==> slots[i].track.value.number != track
      modifies this`slots, this`history, file, cache, Tracks()
      ensures Valid() && fresh(Tracks() - old(Tracks()) - {null})
      ensures history == old(history) + [track] && file.failures >= old(file.failures)
      ensures file.failures == old(file.failures) ==> a.At?
      ensures file.failures == old(file.failures) && old(HasRoom(slots)) ==> file.bytes == old(file.bytes)
      ensures old(file.health.Sound? && HasRoom(slots)) ==> file.failures == old(file.failures)
      ensures a.At? ==> Holds(slots, a.slot) && slots[a.slot].track.value.number == track
    {
      // Check for an empty cache slot
      var i := FillEmptySlot(track);
      if i >= 0 {
        if file.failures == 0 && |history| + 1 < SERIAL_LIMIT {
          MissFollowsHistory(old(slots), history, i, slots[i]);
        }
        history := history + [track];
        return At(i);
      }
      // Save the oldest track, then load/overwrite it
      a := ReplaceOldest(track);
      if file.failures == 0 && |history| + 1 < SERIAL_LIMIT {
        ReplaceFollowsHistory(old(slots), sectorSize, blocks, history, a.slot, slots[a.slot]);
      }
      history := history + [track];
    }

    // The track of a sector, 256 sectors to a track.
    method GetTrack(sector: nat) returns (a: Access)
      requires Valid() && sector < blocks
      modifies this`serial, this`slots, this`history, file, cache, Tracks()
      ensures Valid() && fresh(Tracks() - old(Tracks()) - {null})
      ensures history == old(history) + [sector / 256] && file.failures >= old(file.failures)
      ensures file.failures == old(file.failures) && old(HasRoom(slots)) ==> file.bytes == old(file.bytes)
      ensures old(file.health.Sound? && HasRoom(slots)) ==> file.failures == old(file.failures)
      ensures file.failures == old(file.failures) ==> a.At?
      ensures a.At? ==> Holds(slots, a.slot) && slots[a.slot].track.value.number == sector / 256
    {
      UpdateSerial();
      a := AssignTrack(sector / 256);
    }

    // A sector as the host sees it; it can only fail if a file access fails.
    method ReadSectors(sector: nat, count: nat) returns (r: Option<seq<Byte>>)
      requires Valid() && sector < blocks && count == 1
      modifies this`serial, this`slots, this`history, file, cache, Tracks()
      ensures Valid() && fresh(Tracks() - old(Tracks()) - {null})
      ensures history == old(history) + [sector / 256] && file.failures >= old(file.failures)
      ensures file.failures == old(file.failures) ==> r.Some?
      ensures r.Some? ==> HasSector(image, sectorSize, sector) && r.value == Sector(image, sectorSize, sector)
    {
      var a := GetTrack(sector);
      if !a.At? {
        return None;
      }
      assert SlotAgrees(a.slot);
      CachedSectorIsImage(slots[a.slot].track.value, image, sectorSize, sector);
      r := cache[a.slot].disktrk.ReadSector(sector % 256);
    }

    method WriteTrackSector(i: nat, j: nat, data: seq<Byte>)
      requires Mirrored() && Holds(slots, i) && j < |slots[i].track.value.flags| && |data| == sectorSize
      requires |slots[i].track.value.flags| <= 256 && HasSector(slots[i].track.value.buffer, sectorSize, j)
      modifies this`slots, cache[i].disktrk
      ensures Mirrored()
      ensures var t := WriteTrack(old(slots)[i].track.value, sectorSize, j, data);
              slots == old(slots)[i := old(slots)[i].(track := Some(t))]
    {
      assert SlotAgrees(i);
      var d := cache[i].disktrk;
      ghost var t := d.View();
      hide WriteTrack;
      hide HasSector;
      hide Sector;
      hide WriteAt;
      var n := d.WriteSector(data, j);
      WrittenTrackShows(t, sectorSize, j, data, d.View());
      slots := slots[i := slots[i].(track := Some(d.View()))];
      forall k | 0 <= k < CACHE_MAX && k != i
        ensures SlotAgrees(k)
      {
        assert old(SlotAgrees(k));
      }
    }

    method WriteToSlot(i: nat, sector: nat, data: seq<Byte>)
      requires Valid() && Holds(slots, i) && slots[i].track.value.number == sector / 256
      requires sector < blocks && |data| == sectorSize
      modifies this`slots, this`image, cache[i].disktrk
      ensures Valid() && HasSector(old(image), sectorSize, sector)
      ensures image == WriteAt(old(image), sector * sectorSize, data)
    {
      var j := sector % 256;
      ghost var t := slots[i].track.value;
      CachedSectorIsImage(t, image, sectorSize, sector);
      WriteKeepsCoherent(file.bytes, image, sectorSize, blocks, slots, i, j, data);
      WriteTrackSector(i, j, data);
      image := WriteAt(image, sector * sectorSize, data);
      if file.failures == 0 && |history| < SERIAL_LIMIT {
        ContentKeepsOrder(old(slots), slots, |history|, Take(Mru(history), CACHE_MAX));
      }
    }

    // The image changes in the sector and nowhere else, or not at all if a file access fails.
    method WriteSectors(data: seq<Byte>, sector: nat, count: nat) returns (length: nat)
      requires Valid() && sector < blocks && count == 1 && |data| == sectorSize && sectorSize > 0
      modifies this, file, cache, Tracks()
      ensures Valid() && fresh(Tracks() - old(Tracks()) - {null})
      ensures history == old(history) + [sector / 256] && file.failures >= old(file.failures)
      ensures file.failures == old(file.failures) ==> length != 0
      ensures file.failures == old(file.failures) && old(HasRoom(slots)) ==> file.bytes == old(file.bytes)
      ensures old(file.health.Sound? && HasRoom(slots)) ==> file.failures == old(file.failures)
      ensures length == 0 ==> image == old(image)
      ensures length != 0 ==> length == sectorSize && HasSector(old(image), sectorSize, sector)
                              && image == WriteAt(old(image), sector * sectorSize, data)
    {
      var a := GetTrack(sector);
      if !a.At? {
        return 0;
      }
      WriteToSlot(a.slot, sector, data);
      return sectorSize;
    }

    // The image never changes, and after a successful flush the file is the image. A file that is the image stays it
    // even if the flush fails.
    method Flush() returns (ok: bool)
      requires Valid()
      modifies this`slots, file, Tracks()
      ensures Valid() && file.failures == old(file.failures) + if ok then 0 else 1
      ensures ok ==> file.bytes == image
      ensures file.health == old(file.health)
      ensures old(file.bytes) == image || file.health.Broken? ==> file.bytes == old(file.bytes)
    {
      // Save valid tracks
      var i := 0;
      while i < CACHE_MAX
        invariant 0 <= i <= CACHE_MAX && Consistent() && SameNumbers(old(slots), slots)
        invariant file.failures == old(file.failures)
        invariant forall j :: 0 <= j < i && Holds(slots, j) ==> IsClean(slots[j].track.value)
        invariant file.health == old(file.health)
        invariant old(file.bytes) == image || file.health.Broken? ==> file.bytes == old(file.bytes)
      {
        assert SlotAgrees(i);
        if cache[i].disktrk != null {
          ok := SaveSlot(i);
          if !ok {
            return;
          }
        }
        i := i + 1;
      }
      CleanCacheIsFile(file.bytes, image, sectorSize, blocks, slots);
      if file.failures == 0 && |history| < SERIAL_LIMIT {
        ContentKeepsOrder(old(slots), slots, |history|, Take(Mru(history), CACHE_MAX));
      }
      ok := true;
    }
  }

  lemma {:induction false} EmptySlots(slots: seq<Slot>)
    requires forall i :: 0 <= i < |slots| ==> slots[i].track.None?
    ensures HeldCount(slots) == 0
    decreases |slots|
  {
    if slots != [] {
      EmptySlots(slots[1..]);
    }
  }
}
