// The tape device, for SIMH images. Its methods move a position through the image step by step.
module Tapes {
  import opened Basics
  import opened Simh
  import opened TapeModel
  import opened TapeData
  import opened TapePlaces
  import opened OddRecords

  class Tape {
    var file: seq<Byte>
    var tapePosition: int
    var objectLocation: int
    const blockSize: nat
    const fileSize: nat        // the size when the image was opened
    const maxFileSize: nat
    var fixed: bool
    var initial: bool
    var byteCount: nat
    var remainingCount: nat
    var recordLength: nat
    var recordStart: int
    var blocksRead: nat
    var transferLength: nat    // the transfer counters of the controller
    var chunkSize: nat
    var ili: Option<int>       // the information that goes with an incorrect length
    ghost var track: Track

    constructor (image: seq<Byte>, size: nat, limit: nat)
      requires 0 < size < VALUE_LIMIT
      ensures file == image && blockSize == size && fileSize == |image| && maxFileSize == limit && Here() == Place(0, 0)
    {
      file, blockSize, fileSize, maxFileSize := image, size, |image|, limit;
      tapePosition, objectLocation := 0, 0;
      fixed, initial, byteCount, remainingCount, recordLength, recordStart, blocksRead := false, false, 0, 0, 0, 0, 0;
      transferLength, chunkSize, ili := 0, 0, None;
      track := Track([], 0, [], []);
    }

    function Here(): Place
      reads this`tapePosition, this`objectLocation
    {
      Place(tapePosition, objectLocation)
    }

    method ResetPositions()
      modifies this`tapePosition, this`objectLocation
      ensures Here() == Place(0, 0)
    {
      tapePosition := 0;
      objectLocation := 0;
    }

    method ReadNextMetaData(reverse: bool) returns (s: Step)
      modifies this`tapePosition
      ensures s == NextMetaData(file, old(tapePosition), reverse)
      ensures s.Read? ==> tapePosition == s.position
      ensures s.Unreadable? ==> tapePosition == old(tapePosition)
    {
      if reverse {
        // Position before trailing length or marker
        tapePosition := tapePosition - META_DATA_SIZE;
        if tapePosition < 0 {
          return BeforeStart;
        }
        var m := ReadMetaData(file, tapePosition);
        tapePosition := tapePosition - if IsRecord(m.value) then Pad(m.value.value) + META_DATA_SIZE else 0;
        return Step.Read(m.value, tapePosition);
      }
      var m := ReadMetaData(file, tapePosition);
      if m.None? {
        return Unreadable;
      }
      tapePosition := tapePosition + META_DATA_SIZE;
      return Step.Read(m.value, tapePosition);
    }

    method UpdateObjectLocation(m: MetaData, reverse: bool)
      modifies this`objectLocation
      ensures objectLocation == Counted(old(objectLocation), m, reverse)
    {
      if IsRecord(m) || (m.cls == BAD_DATA && m.value == 0) || (m.cls == GOOD_DATA && m.value == 0) {
        objectLocation := objectLocation + if reverse then -1 else 1;
      }
    }

    // The switch over the class of meta data; None if they are skipped
    method ClassifyMetaData(m: MetaData, count: int, reverse: bool) returns (r: Option<Lookup>)
      modifies this`tapePosition
      ensures r == Classify(m, old(Here()), count)
      ensures tapePosition == old(tapePosition) + if r.None? && !reverse then Body(m) else 0
    {
      if m.cls == GOOD_DATA {
        return Some(Object(if m.value != 0 then BLOCK else FILEMARK, m.value, m, Here()));
      } else if m.cls == BAD_DATA {
        return Some(Object(BLOCK, m.value, m, Here()));
      } else if m.cls == RESERVED_MARKER {
        if m.value == END_OF_MEDIUM {
          return Some(NoObject(EndOfPartition(count), Here()));
        }
      } else if m.cls == PRIVATE_MARKER {
        if m.value % 0x100_0000 == PRIVATE_MARKER_MAGIC {
          return Some(Object(m.value / 0x100_0000 % 16, 0, m, Here()));
        }
      } else if !reverse && IsRecord(m) {
        tapePosition := tapePosition + Pad(m.value) + META_DATA_SIZE;
      }
      return None;
    }

    // The next object. Every step moves over at least four bytes, so that this ends on any image.
    method ReadSimhMetaData(count: int, reverse: bool) returns (r: Lookup)
      modifies this`tapePosition, this`objectLocation
      ensures r == NextObject(file, old(Here()), count, reverse) && Here() == r.place
    {
      hide Classify;
      while true
        invariant NextObject(file, Here(), count, reverse) == NextObject(file, old(Here()), count, reverse)
        decreases Room(file, tapePosition, reverse)
      {
        ghost var at := Here();
        var s := ReadNextMetaData(reverse);
        if s.BeforeStart? {
          break;
        }
        if s.Unreadable? {
          return NoObject(MediumError, Here());
        }
        UpdateObjectLocation(s.meta, reverse);
        ghost var next := Here();
        var o := ClassifyMetaData(s.meta, count, reverse);
        if o.Some? {
          ClassifyKeepsPlace(s.meta, next, count);
          return o.value;
        }
        SkipIsProgress(file, at.position, reverse, s, tapePosition, next, count);
      }
      ResetPositions();
      r := NoObject(BeginningOfPartition(count), Here());
    }

    // What an object means for a search
    method JudgeObject(o: Lookup, kind: nat, count: int, reverse: bool, read: Option<int>) returns (r: Option<Search>)
      requires o.Object? && Here() == o.place
      modifies this`tapePosition
      ensures r == Judge(o, kind, count, reverse, read) && objectLocation == old(objectLocation)
      ensures if r.Some? then Here() == r.value.place
              else tapePosition == old(tapePosition) + if reverse then 0 else Body(o.meta)
    {
      // Bad data (not recovered) during READ(6)
      if read.Some? && o.kind == BLOCK && o.length == 0 {
        return Some(Found(o.meta, o.place));
      }
      if !reverse && IsRecord(o.meta) {
        tapePosition := tapePosition + Pad(o.meta.value) + META_DATA_SIZE;
      }
      if o.kind == END_OF_DATA_TYPE {
        if kind == END_OF_DATA_TYPE {
          return Some(Found(o.meta, Here()));
        }
        // End-of-data while spacing over something else
        tapePosition := tapePosition - META_DATA_SIZE;
        return Some(Stopped(EndOfData(count), Here()));
      } else if o.kind == FILEMARK && kind == BLOCK {
        // Terminate while spacing over blocks and a filemark is found
        return Some(Stopped(FilemarkFound(if read.Some? then read.value else if reverse then -count else count),
                            Here()));
      }
      // For end-of-data the count is ignored
      if kind != END_OF_DATA_TYPE && o.kind == kind && count - 1 <= 0 {
        return Some(Found(o.meta, Here()));
      }
      return None;
    }

    // Search for the requested number of objects of a kind, backward if it is negative. READ searches for one block
    // and passes the information for a filemark.
    method FindNextObject(kind: nat, requested: int, read: Option<int>) returns (r: Search)
      modifies this`tapePosition, this`objectLocation
      ensures Here() == r.place
      ensures r == Find(file, old(Here()), kind, if requested < 0 then -requested else requested, requested < 0, read)
    {
      hide NextObject;
      hide Judge;
      var reverse := requested < 0;
      var count := if reverse then -requested else requested;
      ghost var all := Find(file, Here(), kind, count, reverse, read);
      while true
        invariant Find(file, Here(), kind, count, reverse, read) == all
        decreases Room(file, tapePosition, reverse)
      {
        var o := ReadSimhMetaData(count, reverse);
        if o.NoObject? {
          return Stopped(o.stop, o.place);
        }
        var j := JudgeObject(o, kind, count, reverse, read);
        if j.Some? {
          return j.value;
        }
        if kind != END_OF_DATA_TYPE && o.kind == kind {
          count := count - 1;
        }
      }
    }

    // The place behind the n-th object from here
    method FindObject(identifier: nat) returns (r: LocateResult)
      modifies this`tapePosition, this`objectLocation
      ensures r == TapeModel.Locate(file, old(Here()), identifier) && Here() == r.place
    {
      hide NextObject;
      var n: nat := identifier;
      while true
        invariant TapeModel.Locate(file, Here(), n) == TapeModel.Locate(file, old(Here()), identifier)
        decreases Room(file, tapePosition, false)
      {
        var o := ReadSimhMetaData(0, false);
        if o.NoObject? {
          return LocateStopped(o.stop, o.place);
        }
        if o.meta.cls == PRIVATE_MARKER && o.meta.value % 0x100_0000 == PRIVATE_MARKER_MAGIC {
          return NotFound(o.place);
        }
        tapePosition := tapePosition + if IsRecord(o.meta) then Pad(o.meta.value) + META_DATA_SIZE else 0;
        n := (n + WORD_LIMIT - 1) % WORD_LIMIT;
        if n == 0 {
          return Located(Here());
        }
      }
    }

    // SPACE(6) over blocks or filemarks, or to the end of the data
    method Space(kind: nat, count: int) returns (e: Option<Stop>)
      requires kind in {BLOCK, FILEMARK, END_OF_DATA_TYPE}
      modifies this`tapePosition, this`objectLocation
      ensures kind != END_OF_DATA_TYPE && count == 0 ==> e.None? && Here() == old(Here())
      ensures kind != END_OF_DATA_TYPE && count != 0 ==>
                var r := Find(file, old(Here()), kind, if count < 0 then -count else count, count < 0, None);
                Here() == r.place && e == if r.Found? then None else Some(r.stop)
      ensures kind == END_OF_DATA_TYPE ==>
                var r := Find(file, old(Here()), kind, 0, false, None);
                && e == (if r.Found? then None else Some(r.stop))
                && Here() == if r.Found? then Place(r.place.position - META_DATA_SIZE, r.place.location) else r.place
      ensures StaysBetween(file, old(Here()), Here())
    {
      hide StaysBetween;
      StandingStays(file, Here());
      SpacingStays(file, Here(), kind, if kind == END_OF_DATA_TYPE then 0 else if count < 0 then -count else count,
                   kind != END_OF_DATA_TYPE && count < 0);
      e := None;
      if kind != END_OF_DATA_TYPE {
        if count != 0 {
          var r := FindNextObject(kind, count, None);
          if r.Stopped? {
            return Some(r.stop);
          }
        }
      } else {
        var r := FindNextObject(END_OF_DATA_TYPE, 0, None);
        if r.Stopped? {
          return Some(r.stop);
        }
        tapePosition := tapePosition - META_DATA_SIZE;
      }
    }

    // LOCATE(10) and LOCATE(16); a refused one leaves the tape where it is.
    method Locate(identifier: nat, bt: bool, cp: bool) returns (r: Option<LocateResult>)
      modifies this`tapePosition, this`objectLocation
      ensures r.None? <==> cp || (bt && identifier != 0)
      ensures Here() == if r.None? then old(Here()) else r.value.place
      ensures r.Some? ==>
                r.value == if identifier == 0 then Located(Place(0, 0))
                           else TapeModel.Locate(file, Place(0, 0), identifier % WORD_LIMIT)
      ensures (r.Some? ==> r.value.Located?) ==> StaysBetween(file, old(Here()), Here())
    {
      hide StaysBetween;
      StandingStays(file, Here());
      LocatingStays(file, Here(), identifier % WORD_LIMIT);
      // CP is not supported
      if cp || (bt && identifier != 0) {
        return None;
      }
      ResetPositions();
      if identifier == 0 {
        return Some(Located(Here()));
      }
      var l := FindObject(identifier % WORD_LIMIT);
      return Some(l);
    }

    predicate AtBoundary(first: bool)
      reads this`fixed, this`remainingCount, this`byteCount, this`recordLength
    {
      fixed || first || remainingCount == 0 || byteCount - remainingCount == recordLength
    }

    method IsAtRecordBoundary() returns (r: bool)
      modifies this`initial
      ensures r == AtBoundary(old(initial)) && !initial
    {
      r := fixed || initial || remainingCount == 0 || byteCount - remainingCount == recordLength;
      initial := false;
    }

    // What has been written is where it belongs.
    ghost predicate Laid()
      reads this`file, this`tapePosition, this`track
    {
      file == track.File() && tapePosition == track.Position() && |track.tail| <= META_DATA_SIZE
    }

    // Write meta data, without moving the position. The check counts the position twice.
    method WriteSimhMetaData(m: MetaData) returns (ok: bool)
      requires m.Valid() && tapePosition >= 0
      modifies this`file
      ensures file == if ok then Overwrite(old(file), tapePosition, ToLittleEndian(m)) else old(file)
      ensures ok <==> 2 * tapePosition + META_DATA_SIZE <= maxFileSize
    {
      if tapePosition + tapePosition + META_DATA_SIZE > maxFileSize {
        return false;
      }
      file := Overwrite(file, tapePosition, ToLittleEndian(m));
      return true;
    }

    // A length, in front of or behind the data
    method PutLength(n: nat) returns (ok: bool)
      requires Laid() && n < VALUE_LIMIT
      modifies this`file, this`tapePosition, this`track
      ensures Laid() && track == if ok then old(track).With(Good(n)) else old(track)
    {
      ok := WriteSimhMetaData(MetaData(GOOD_DATA, n));
      if ok {
        track.More(Good(n));
        track := track.With(Good(n));
        tapePosition := tapePosition + META_DATA_SIZE;
      }
    }

    // There is an end-of-data object behind the last position if there is room for it.
    method PutEndOfData() returns (ok: bool)
      requires Laid()
      modifies this`file, this`track
      ensures Laid()
      ensures track == old(track).(tail := if ok && fileSize >= tapePosition + META_DATA_SIZE
                                           then ToLittleEndian(END_OF_DATA)
                                           else old(track).tail)
    {
      ok := true;
      if fileSize >= tapePosition + META_DATA_SIZE {
        ok := WriteSimhMetaData(END_OF_DATA);
        if ok {
          track.Ahead(ToLittleEndian(END_OF_DATA));
          track := track.(tail := ToLittleEndian(END_OF_DATA));
        }
      }
    }

    // WriteMetaData for a block or a filemark, whose length is 0
    method WriteMetaData(size: nat) returns (ok: bool)
      requires Laid() && size < VALUE_LIMIT
      modifies this`file, this`tapePosition, this`track
      ensures Laid() && (ok ==> track.written == old(track).written + Good(size))
      ensures track.base == old(track).base && track.start == old(track).start
    {
      ok := PutLength(size);
      if ok {
        ok := PutEndOfData();
      }
    }

    method PutBytes(bytes: seq<Byte>)
      requires Laid()
      modifies this`file, this`tapePosition, this`track
      ensures Laid() && track == old(track).With(bytes)
    {
      track.More(bytes);
      track := track.With(bytes);
      file := Overwrite(file, tapePosition, bytes);
      tapePosition := tapePosition + |bytes|;
    }

    // The length in front of a record, at its beginning
    method OpenRecord() returns (ok: bool)
      requires Laid() && recordLength < VALUE_LIMIT
      modifies this`file, this`tapePosition, this`track, this`initial
      ensures Laid() && track.base == old(track).base && track.start == old(track).start && !initial
      ensures ok ==> track.written == old(track).written + if old(AtBoundary(initial)) then Good(recordLength) else []
    {
      ok := true;
      var boundary := IsAtRecordBoundary();
      if boundary {
        ok := WriteMetaData(recordLength);
      }
    }

    method PadTape()
      requires Laid()
      modifies this`file, this`tapePosition, this`track
      ensures Laid() && track == old(track).With(Padding(old(track).Position(), 0))
    {
      if tapePosition % 2 == 1 {
        PutBytes([0]);
      } else {
        assert track.written + [] == track.written;
      }
    }

    // The padding and the length behind a record, at its end
    method CloseRecord() returns (ok: bool)
      requires Laid() && recordLength < VALUE_LIMIT && !initial
      modifies this`file, this`tapePosition, this`track, this`initial, this`objectLocation
      ensures Laid() && track.base == old(track).base && track.start == old(track).start && !initial
      ensures ok ==>
                && objectLocation == old(objectLocation) + (if AtBoundary(false) then 1 else 0)
                && track.written == old(track).written + if AtBoundary(false)
                                                         then Closing(old(track).Position(), recordLength)
                                                         else []
      ensures ok && AtBoundary(false) ==> track.tail == []
    {
      hide Laid;
      hide ToLittleEndian;
      ok := true;
      var boundary := IsAtRecordBoundary();
      if boundary {
        PadTape();
        ok := PutLength(recordLength);
        if ok {
          objectLocation := objectLocation + 1;
        }
      }
    }

    // WriteData: a chunk of data, with the lengths around the record it belongs to
    method WriteData(data: seq<Byte>) returns (ok: bool)
      requires Laid() && 0 < |data| <= remainingCount <= byteCount && recordLength < VALUE_LIMIT
      modifies this`file, this`tapePosition, this`track, this`initial, this`remainingCount, this`objectLocation
      ensures Laid() && track.base == old(track).base && track.start == old(track).start && !initial
      ensures ok ==>
                && remainingCount == old(remainingCount) - |data|
                && objectLocation == old(objectLocation) + (if AtBoundary(false) then 1 else 0)
                && track.written == ChunkOf(old(track), old(AtBoundary(initial)), data, AtBoundary(false), recordLength)
      ensures ok && remainingCount == 0 ==> track.tail == EndOfDataAt(track.Position(), fileSize)
    {
      hide ToLittleEndian;
      hide Overwrite;
      hide Padding;
      ok := OpenRecord();
      if !ok {
        return;
      }
      // CheckForOverflow
      if tapePosition + |data| > maxFileSize {
        return false;
      }
      PutBytes(data);
      remainingCount := remainingCount - |data|;
      ok := CloseRecord();
      if ok && remainingCount == 0 {
        // Ensure that there is always an end-of-data object
        ok := PutEndOfData();
      }
    }

    // The data of a WRITE, chunk by chunk
    method TransferFromHost(data: seq<Byte>) returns (ok: bool)
      requires Laid() && track.written == [] && initial && data != [] && remainingCount == byteCount == |data|
      requires recordLength < VALUE_LIMIT && 0 < blockSize && (!fixed ==> recordLength == |data|)
      requires WriteProgress(track.start, [], data, 0, recordLength, fixed, 0)
      requires fixed ==> recordLength == blockSize && |data| % blockSize == 0
      modifies this
      ensures Laid() && track.base == old(track).base && track.start == old(track).start
      ensures ok ==>
                && track.written == Records(track.start, data, old(recordLength))
                && track.tail == EndOfDataAt(track.Position(), fileSize)
                && objectLocation == old(objectLocation) + |BlocksOf(data, old(recordLength))|
    {
      hide Laid;
      hide WriteProgress;
      hide ChunkOf;
      ghost var n, count := recordLength, 0;
      while remainingCount > 0
        invariant Laid() && track.base == old(track).base && track.start == old(track).start
        invariant remainingCount <= byteCount == |data| && recordLength == n < VALUE_LIMIT && fixed == old(fixed)
        invariant initial <==> remainingCount == |data|
        invariant fixed ==> Whole(remainingCount, blockSize) && n == blockSize
        invariant !fixed ==> n == |data|
        invariant WriteProgress(track.start, track.written, data, |data| - remainingCount, n, fixed, count)
        invariant objectLocation == old(objectLocation) + count
        invariant remainingCount == 0 ==> track.tail == EndOfDataAt(track.Position(), fileSize)
      {
        ghost var t, done := track, |data| - remainingCount;
        var length := if blockSize < remainingCount then blockSize else remainingCount;
        WholeBlock(remainingCount, blockSize, fixed);
        var chunk := data[|data| - remainingCount..|data| - remainingCount + length];
        ok := WriteData(chunk);
        if !ok {
          return;
        }
        if fixed {
          FixedStep(t, data, done, n, count, chunk);
          count := count + 1;
        } else {
          VariableStep(t, data, done, count, length);
          count := if remainingCount == 0 then 1 else 0;
        }
      }
      WriteDone(track.start, track.written, data, n, fixed, count);
      ok := true;
    }

    // WRITE(6) of all the data, in fixed blocks or as one record
    method Write(data: seq<Byte>, fixedBlocks: bool) returns (ok: bool)
      requires 0 < blockSize < VALUE_LIMIT && |data| < 0x8000_0000 && tapePosition >= 0
      requires if fixedBlocks then |data| % blockSize == 0 else |data| < VALUE_LIMIT
      modifies this
      ensures ok && data != [] ==>
                var p, n := old(tapePosition), if fixedBlocks then blockSize else |data|;
                && Here() == Place(p + |Records(p, data, n)|, old(objectLocation) + |BlocksOf(data, n)|)
                && file == Overwrite(old(file), p, Records(p, data, n) + EndOfDataAt(tapePosition, fileSize))
      ensures ok && data != [] ==>
                var n := if fixedBlocks then blockSize else |data|;
                WritesBehind(old(file), old(Here()), file, Here(), BlocksOf(data, n),
                             EndOfDataAt(tapePosition, fileSize) != [])
      ensures data == [] ==> ok && file == old(file) && Here() == old(Here())
      ensures forall i :: 0 <= i < old(tapePosition) && i < |old(file)| ==> i < |file| && file[i] == old(file)[i]
    {
      hide Overwrite;
      hide Records;
      hide BlocksOf;
      hide WritesBehind;
      hide WriteProgress;
      hide EndOfDataAt;
      EndOfDataOrNothing(fileSize);
      fixed := fixedBlocks;
      byteCount := |data|;
      ok := true;
      if byteCount != 0 {
        remainingCount := byteCount;
        recordLength := if fixed then blockSize else byteCount;
        initial := true;
        track := Track(file, tapePosition, [], []);
        WriteBegins(tapePosition, data, recordLength, fixed);
        ghost var before, at, n := file, Here(), recordLength;
        ok := TransferFromHost(data);
        if ok {
          WritingIsBehind(before, at, data, n, EndOfDataAt(tapePosition, fileSize));
        }
      }
    }

    method SetTransferSize(length: nat, size: nat)
      modifies this`transferLength, this`chunkSize
      ensures transferLength == length && chunkSize == Min(length, size)
    {
      transferLength := length;
      chunkSize := if length < size then length else size;
    }

    // An incorrect length, reported unless the host suppresses it; the result is the length that can be read then.
    method CheckBlockLength(sili: bool) returns (n: nat)
      requires recordLength != 0 && remainingCount <= byteCount && 0 < blockSize
      modifies this`ili
      ensures n <= byteCount
      ensures !fixed ==> ili == (if Incorrect(recordLength, byteCount, sili) then Some(byteCount - recordLength)
                                 else old(ili))
                         && n == if Incorrect(recordLength, byteCount, sili) then Min(recordLength, byteCount) else 0
      ensures fixed && byteCount % recordLength == 0 ==> n == 0 && ili == old(ili)
      ensures fixed && byteCount % recordLength != 0 ==>
                n == Min(recordLength, byteCount) && ili == Some((byteCount - remainingCount) / blockSize - blocksRead)
    {
      if recordLength != byteCount {
        if fixed && byteCount % recordLength != 0 {
          ili := Some((byteCount - remainingCount) / blockSize - blocksRead);
          return if recordLength < byteCount then recordLength else byteCount;
        }
        if !fixed && (!sili || byteCount > recordLength) {
          ili := Some(byteCount - recordLength);
          return if recordLength < byteCount then recordLength else byteCount;
        }
      }
      return 0;
    }

    // ReadData at the beginning of a record: find it.
    method FindRecord(info: int) returns (e: Option<Stop>)
      modifies this`tapePosition, this`objectLocation, this`recordLength, this`recordStart
      ensures var f := Find(file, old(Here()), BLOCK, 0, false, Some(info));
              if IsReadable(f) then
                && e.None? && recordLength == f.meta.value != 0 && objectLocation == f.place.location
                && tapePosition == recordStart == f.place.position - recordLength - META_DATA_SIZE
                && Room(file, f.place.position, false) < Room(file, old(tapePosition), false)
              else e == Some(StopOf(f)) && Here() == f.place
    {
      hide Find;
      FindIsProgress(file, Here(), BLOCK, 0, Some(info));
      var f := FindNextObject(BLOCK, 0, Some(info));
      if f.Stopped? {
        return Some(f.stop);
      }
      FoundIsRecord(file, old(Here()), info);
      recordLength := f.meta.value;
      if f.meta.cls == BAD_DATA && recordLength == 0 {
        return Some(MediumError);
      }
      tapePosition := tapePosition - (recordLength + META_DATA_SIZE);
      recordStart := tapePosition;
      return None;
    }

    // Limit the transfer to the length of the record if that is not the requested one.
    method AdjustLength(sili: bool) returns (n: nat)
      requires recordLength != 0 && 0 < byteCount && remainingCount <= byteCount && 0 < blockSize
      modifies this`ili, this`byteCount, this`remainingCount, this`transferLength, this`chunkSize
      ensures !fixed ==> n == (if Incorrect(recordLength, old(byteCount), sili) then Min(recordLength, old(byteCount))
                               else 0)
                         && ili == if n != 0 then Some(old(byteCount) - recordLength) else old(ili)
      ensures fixed && Whole(old(byteCount), recordLength) ==> n == 0 && ili == old(ili)
      ensures if n != 0 then byteCount == remainingCount == transferLength == n && chunkSize == Min(n, blockSize)
              else byteCount == old(byteCount) && remainingCount == old(remainingCount)
                   && transferLength == old(transferLength) && chunkSize == old(chunkSize)
    {
      n := CheckBlockLength(sili);
      if n != 0 {
        byteCount := if n < byteCount then n else byteCount;
        remainingCount := byteCount;
        SetTransferSize(byteCount, blockSize);
      }
    }

    // The next bytes of the record
    method ReadBytes(length: nat) returns (r: Option<seq<Byte>>)
      requires length <= remainingCount
      modifies this`tapePosition, this`remainingCount
      ensures if 0 <= old(tapePosition) && old(tapePosition) + length <= |file| then
                && r == Some(file[old(tapePosition)..old(tapePosition) + length])
                && tapePosition == old(tapePosition) + length && remainingCount == old(remainingCount) - length
              else r.None? && tapePosition == old(tapePosition) && remainingCount == old(remainingCount)
    {
      if tapePosition < 0 || tapePosition + length > |file| {
        return None;
      }
      r := Some(file[tapePosition..tapePosition + length]);
      remainingCount := remainingCount - length;
      tapePosition := tapePosition + length;
    }

    // The length behind the record
    method FinishRecord() returns (ok: bool)
      modifies this`tapePosition, this`blocksRead
      ensures var t := recordStart + Pad(recordLength);
              && ok == TrailerFits(file, t, recordLength)
              && (ok ==> tapePosition == t + META_DATA_SIZE)
    {
      tapePosition := recordStart + Pad(recordLength);
      if tapePosition < 0 || tapePosition + META_DATA_SIZE > |file| {
        return false;
      }
      var trailing := FromLittleEndian(file[tapePosition..tapePosition + META_DATA_SIZE]).value;
      tapePosition := tapePosition + META_DATA_SIZE;
      if recordLength != trailing {
        blocksRead := blocksRead + 1;
        return false;
      }
      if remainingCount == 0 {
        blocksRead := blocksRead + 1;
      }
      return true;
    }

    ghost function Counters(): Counts
      reads this`byteCount, this`remainingCount, this`transferLength, this`chunkSize, this`ili
    {
      Counts(byteCount, remainingCount, transferLength, chunkSize, ili)
    }

    // ReadData behind the search for a record: a chunk of it, and the length behind it if it was the last one.
    method ReadChunk(length: nat) returns (r: Result)
      requires length <= remainingCount <= byteCount && !initial
      modifies this`tapePosition, this`blocksRead, this`remainingCount, this`initial
      ensures !initial
      ensures ChunkDone(file, old(tapePosition), length, recordStart, recordLength, fixed, old(Counters()), r,
                        tapePosition, Counters())
    {
      var bytes := ReadBytes(length);
      if bytes.None? {
        return Failed(MediumError);
      }
      var boundary := IsAtRecordBoundary();
      if boundary {
        var ok := FinishRecord();
        if !ok {
          return Failed(MediumError);
        }
      }
      return Bytes(bytes.value);
    }

    // ReadData up to where its bytes are: at a boundary, find the next record.
    method StartChunk(info: int, sili: bool) returns (e: Option<Stop>, length: nat)
      requires 0 < blockSize && 0 < chunkSize <= remainingCount <= byteCount
      modifies this`tapePosition, this`objectLocation, this`recordLength, this`recordStart, this`ili
      modifies this`byteCount, this`remainingCount, this`transferLength, this`chunkSize, this`initial
      ensures !initial && length == Min(old(chunkSize), byteCount) && 0 < length <= remainingCount <= byteCount
      ensures 0 < chunkSize
      ensures !old(AtBoundary(initial)) ==>
                && e.None? && Here() == old(Here()) && recordLength == old(recordLength)
                  && recordStart == old(recordStart)
                && Counters() == old(Counters())
      ensures old(AtBoundary(initial)) ==>
                var f := Find(file, old(Here()), BLOCK, 0, false, Some(info));
                if IsReadable(f) then
                  && e.None? && recordLength == f.meta.value != 0 && objectLocation == f.place.location
                  && tapePosition == recordStart == f.place.position - recordLength - META_DATA_SIZE
                  && Room(file, f.place.position, false) < Room(file, old(tapePosition), false)
                  && (!fixed ==> Counters() == Adjusted(old(Counters()), recordLength, sili, blockSize))
                  && (fixed && Whole(old(byteCount), recordLength) ==> Counters() == old(Counters()))
                else e == Some(StopOf(f)) && Here() == f.place
      ensures old(chunkSize) <= old(transferLength) <= old(remainingCount) && old(chunkSize) <= blockSize ==>
                length <= chunkSize <= transferLength <= remainingCount && chunkSize <= blockSize
    {
      hide Find;
      length := chunkSize;
      e := None;
      var boundary := IsAtRecordBoundary();
      if boundary {
        e := FindRecord(info);
        if e.Some? {
          return;
        }
        var actual := AdjustLength(sili);
        if actual != 0 {
          length := if actual < length then actual else length;
        }
      }
    }

    // ReadData: a chunk of a record, or of the next one at a boundary
    method ReadData(info: int, sili: bool) returns (r: Result)
      requires 0 < blockSize && 0 < chunkSize <= remainingCount <= byteCount
      modifies this`tapePosition, this`objectLocation, this`recordLength, this`recordStart, this`ili, this`blocksRead
      modifies this`byteCount, this`remainingCount, this`transferLength, this`chunkSize, this`initial
      ensures !initial && 0 < chunkSize
      ensures var f := Find(file, old(Here()), BLOCK, 0, false, Some(info));
              if !old(AtBoundary(initial)) then
                recordStart == old(recordStart) && recordLength == old(recordLength)
                  && objectLocation == old(objectLocation)
              else if IsReadable(f) then
                && recordLength == f.meta.value != 0 && objectLocation == f.place.location
                && recordStart == f.place.position - recordLength - META_DATA_SIZE
              else r == Failed(StopOf(f)) && Here() == f.place
      ensures (old(AtBoundary(initial)) ==>
                 && IsReadable(Find(file, old(Here()), BLOCK, 0, false, Some(info)))
                 && (fixed ==> Whole(old(byteCount), recordLength))) ==>
                ChunkDone(file, if old(AtBoundary(initial)) then recordStart else old(tapePosition), old(chunkSize),
                          recordStart, recordLength, fixed,
                          if old(AtBoundary(initial)) && !fixed then Adjusted(old(Counters()), recordLength, sili,
                              blockSize)
                          else old(Counters()),
                          r, tapePosition, Counters())
      ensures old(chunkSize) <= old(transferLength) <= old(remainingCount) && old(chunkSize) <= blockSize
              && r.Bytes? ==>
                chunkSize <= transferLength && transferLength - chunkSize <= remainingCount <= byteCount
                  && chunkSize <= blockSize
      // Blocks of fixed length move on
      ensures fixed && r.Bytes? ==> Room(file, tapePosition, false) < Room(file, old(tapePosition), false)
    {
      hide Find;
      hide IsReadable;
      hide Adjusted;
      hide ChunkDone;
      hide Pad;
      hide Room;
      var e, length := StartChunk(info, sili);
      if e.Some? {
        return Failed(e.value);
      }
      ghost var p, c := tapePosition, Counters();
      r := ReadChunk(length);
      SameChunk(file, p, length, old(chunkSize), recordStart, recordLength, fixed, c, r, tapePosition, Counters());
      if fixed && r.Bytes? {
        RoomShrinks(file, old(tapePosition), recordStart, recordLength);
      }
    }

    // The controller's side of a transferred chunk
    method UpdateTransferLength()
      requires chunkSize <= transferLength
      modifies this`transferLength, this`chunkSize
      ensures transferLength == old(transferLength) - old(chunkSize) && chunkSize == Min(old(chunkSize), transferLength)
    {
      transferLength := transferLength - chunkSize;
      if transferLength < chunkSize {
        chunkSize := transferLength;
      }
    }

    // In the middle of the transfer of n bytes of a record, or behind it
    ghost predicate Midway(start: int, n: nat, length: nat, bytes: seq<Byte>)
      reads this
    {
      && transferLength == remainingCount <= byteCount == n <= recordLength == length && chunkSize <= remainingCount
      && !initial && !fixed && recordStart == start
      && PartRead(file, start, n, n - remainingCount, recordLength, bytes, tapePosition)
      && (0 < transferLength ==> 0 < chunkSize && tapePosition == start + n - remainingCount && remainingCount < n)
    }

    method FirstChunk(info: int, sili: bool) returns (r: Result)
      requires 0 < blockSize && 0 < byteCount == remainingCount == transferLength
      requires chunkSize == Min(byteCount, blockSize)
      requires initial && !fixed && ili == None
      modifies this
      ensures file == old(file)
      ensures var f, count := Find(file, old(Here()), BLOCK, 0, false, Some(info)), old(byteCount);
              && (r.Failed? ==> ReadVariable(file, old(Here()), count, sili, info) == NotRead(r.stop))
              && (!IsReadable(f) ==> r.Failed? && Here() == f.place)
              && (r.Bytes? ==>
                    && objectLocation == f.place.location
                    && Midway(f.place.position - f.meta.value - META_DATA_SIZE, ReadLength(f.meta.value, count, sili),
                              f.meta.value, r.bytes)
                    && ili == if Incorrect(f.meta.value, count, sili) then Some(count - f.meta.value) else None)
    {
      hide Find;
      hide ChunkDone;
      hide TrailerFits;
      hide PartRead;
      hide Inside;
      hide Adjusted;
      hide Incorrect;
      hide ReadLength;
      hide IsReadable;
      ghost var at, count := Here(), byteCount;
      ghost var f := Find(file, at, BLOCK, 0, false, Some(info));
      r := ReadData(info, sili);
      if IsReadable(f) {
        FirstDone(file, recordStart, recordLength, count, blockSize, sili,
                  Adjusted(Counts(count, count, count, Min(count, blockSize), None), recordLength, sili, blockSize),
                  r, tapePosition, Counters());
      }
      if r.Failed? {
        if IsReadable(f) {
          NotAllRead(file, at, count, sili, info, byteCount);
        } else {
          NotFoundReads(file, at, count, sili, info);
        }
        return;
      }
      UpdateTransferLength();
      PartPosition(file, recordStart, byteCount, byteCount - remainingCount, recordLength, r.bytes, tapePosition);
    }

    method NextChunk(info: int, sili: bool, ghost start: int, ghost n: nat, ghost length: nat, ghost bytes: seq<Byte>)
      returns (r: Result)
      requires Midway(start, n, length, bytes) && 0 < transferLength && 0 < blockSize
      modifies this
      ensures file == old(file) && ili == old(ili) && objectLocation == old(objectLocation)
      ensures if r.Bytes? then Midway(start, n, length, bytes + r.bytes) && transferLength < old(transferLength)
              else r == Failed(MediumError) && !(Inside(file, start, n)
                                                 && TrailerFits(file, start + Pad(length), length))
    {
      hide Find;
      hide ChunkEnd;
      hide TrailerFits;
      hide PartRead;
      hide Inside;
      PartReadGrows(file, start, n, n - remainingCount, length, bytes, chunkSize);
      r := ReadData(info, sili);
      if r.Bytes? {
        UpdateTransferLength();
        PartPosition(file, start, n, n - remainingCount, length, bytes + r.bytes, tapePosition);
      }
    }

    // The chunks of one record, for a READ with variable length
    method TransferRecord(info: int, sili: bool) returns (r: Result)
      requires 0 < blockSize && 0 < byteCount == remainingCount == transferLength
      requires chunkSize == Min(byteCount, blockSize)
      requires initial && !fixed && ili == None
      modifies this
      ensures file == old(file)
      ensures var v := ReadVariable(file, old(Here()), old(byteCount), sili, info);
              if v.Data? then r == Bytes(v.bytes) && ili == v.ili && Here() == v.place else r == Failed(v.stop)
      ensures var f := Find(file, old(Here()), BLOCK, 0, false, Some(info));
              !IsReadable(f) ==> Here() == f.place
    {
      hide Find;
      hide ReadVariable;
      hide PartRead;
      ghost var at, count := Here(), byteCount;
      ghost var f := Find(file, at, BLOCK, 0, false, Some(info));
      r := FirstChunk(info, sili);
      if r.Failed? {
        return;
      }
      ghost var n, start, i := byteCount, recordStart, ili;
      while transferLength > 0
        invariant file == old(file) && ili == i && objectLocation == f.place.location
        invariant r.Bytes? && Midway(start, n, f.meta.value, r.bytes)
      {
        var c := NextChunk(info, sili, start, n, f.meta.value, r.bytes);
        if c.Failed? {
          NotAllRead(file, at, count, sili, info, n);
          return c;
        }
        r := Bytes(r.bytes + c.bytes);
      }
      AllRead(file, at, count, sili, info, n, r.bytes, tapePosition);
    }

    // The counters in the middle of a READ of whole blocks, if no record of another length has been found
    ghost predicate AtBlock(total: Option<ReadResult>, bytes: seq<Byte>, count: nat, info: int)
      requires 0 < blockSize
      reads this
    {
      && fixed && 0 <= chunkSize <= transferLength <= remainingCount <= byteCount && chunkSize <= blockSize
      && (0 < transferLength ==> 0 < chunkSize)
      && BlocksSoFar(total, bytes, ReadFixed(file, Here(), remainingCount, blockSize, count, info))
      && (total.Some? ==>
            && transferLength == remainingCount && byteCount == count && ili == None
            && Whole(count, blockSize) && Whole(remainingCount, blockSize)
            && (0 < transferLength ==> chunkSize == blockSize))
    }

    method NextBlock(info: int, ghost total: Option<ReadResult>, ghost bytes: seq<Byte>, ghost count: nat)
      returns (r: Result)
      requires 0 < blockSize && AtBlock(total, bytes, count, info) && 0 < transferLength
      modifies this
      ensures file == old(file) && (r.Failed? && total.Some? ==> total.value == NotRead(r.stop))
      ensures r.Bytes? ==> AtBlock(total, bytes + r.bytes, count, info)
                           && Room(file, tapePosition, false) < Room(file, old(tapePosition), false)
    {
      hide Find;
      hide ReadFixed;
      hide BlocksSoFar;
      hide Whole;
      hide ChunkDone;
      hide Room;
      hide IsReadable;
      ghost var at, left, c := Here(), remainingCount, Counters();
      if total.Some? {
        WholeBlock(left, blockSize, true);
      }
      r := ReadData(info, false);
      if total.Some? {
        BlockStep(file, total, bytes, at, left, blockSize, count, info, c, r, Here(), Counters());
      }
      if r.Bytes? {
        UpdateTransferLength();
        NoTotal(total, bytes + r.bytes, ReadFixed(file, Here(), remainingCount, blockSize, count, info));
        assert BlocksSoFar(total, bytes + r.bytes, ReadFixed(file, Here(), remainingCount, blockSize, count, info)) by {
          if total.Some? {
            assert remainingCount == left - blockSize;
          }
        }
        if total.Some? && 0 < transferLength {
          WholeBlock(left - blockSize, blockSize, true);
          assert chunkSize == blockSize;
        }
        assert 0 < transferLength ==> 0 < chunkSize;
        assert chunkSize <= transferLength <= remainingCount <= byteCount && chunkSize <= blockSize;
      }
    }

    // The blocks of a READ with fixed length
    method TransferBlocks(info: int) returns (r: Result)
      requires 0 < blockSize && 0 < byteCount == remainingCount == transferLength && chunkSize == blockSize
      requires byteCount % blockSize == 0 && initial && fixed && ili == None
      modifies this
      ensures file == old(file)
      ensures var v := ReadFixed(file, old(Here()), old(byteCount), blockSize, old(byteCount), info);
              v.Some? ==>
                if v.value.Data? then r == Bytes(v.value.bytes) && Here() == v.value.place && ili == None
                else r == Failed(v.value.stop)
    {
      hide Find;
      hide ReadFixed;
      hide BlocksSoFar;
      ghost var total, count := ReadFixed(file, Here(), byteCount, blockSize, byteCount, info), byteCount;
      var bytes := [];
      BlocksBegin(total);
      while transferLength > 0
        invariant file == old(file) && AtBlock(total, bytes, count, info)
        decreases Room(file, tapePosition, false)
      {
        var c := NextBlock(info, total, bytes, count);
        if c.Failed? {
          return c;
        }
        bytes := bytes + c.bytes;
      }
      if total.Some? {
        BlocksEnd(file, total, bytes, Here(), blockSize, count, info);
      }
      r := Bytes(bytes);
    }

    // READ(6) of a number of bytes, in fixed blocks or from one record
    method Read(count: nat, fixedBlocks: bool, sili: bool) returns (r: Result)
      requires 0 < blockSize && (fixedBlocks ==> Whole(count, blockSize))
      modifies this
      ensures file == old(file)
      ensures fixedBlocks && sili ==> r == Failed(InvalidField) && Here() == old(Here())
      ensures !(fixedBlocks && sili) && count == 0 ==> r == Bytes([]) && Here() == old(Here())
      ensures !fixedBlocks && count != 0 ==>
                var v := ReadVariable(file, old(Here()), count, sili, count);
                && (if v.Data? then r == Bytes(v.bytes) && ili == v.ili && Here() == v.place else r == Failed(v.stop))
                && var f := Find(file, old(Here()), BLOCK, 0, false, Some(count));
                   !IsReadable(f) ==> Here() == f.place
      ensures fixedBlocks && !sili && count != 0 ==>
                var v := ReadFixed(file, old(Here()), count, blockSize, count, 0);
                v.Some? ==>
                  if v.value.Data? then r == Bytes(v.value.bytes) && Here() == v.value.place && ili == None
                  else r == Failed(v.value.stop)
      // From between two objects to between two objects, except behind an error in a record
      ensures !fixedBlocks && r != Failed(MediumError) ==> StaysBetween(file, old(Here()), Here())
      ensures !fixedBlocks ==> StaysBetweenEven(file, old(Here()), Here())
      ensures fixedBlocks && !sili && count != 0 ==>
                var v := ReadFixed(file, old(Here()), count, blockSize, count, 0);
                v.Some? && v.value.Data? ==> StaysBetween(file, old(Here()), Here())
    {
      hide Find;
      hide ReadVariable;
      hide ReadFixed;
      hide IsReadable;
      hide StaysBetween;
      hide StaysBetweenEven;
      ghost var at := Here();
      StandingStays(file, at);
      StaysEven(file, at, at);
      // FIXED and SILI must not both be set
      if fixedBlocks && sili {
        return Failed(InvalidField);
      }
      fixed := fixedBlocks;
      byteCount := count;
      if byteCount == 0 {
        return Bytes([]);
      }
      blocksRead := 0;
      remainingCount := byteCount;
      initial := true;
      ili := None;
      SetTransferSize(byteCount, blockSize);
      if fixed {
        WholeBlock(count, blockSize, true);
        r := TransferBlocks(0);
        ReadingBlocksStays(file, at, count, blockSize, count, 0);
      } else {
        r := TransferRecord(count, sili);
        RecordStays(file, at, count, sili, Here());
      }
    }

    // A WRITE without an error, and a READ of the same length and mode from where it began: the READ delivers the
    // data and ends where the WRITE ended if position and length are even, and it is an error otherwise, except that
    // odd records at an odd position can be taken for each other, or the last one for what lies behind a full tape.
    method WriteThenRead(data: seq<Byte>, fixedBlocks: bool) returns (ok: bool, r: Result)
      requires 0 < blockSize < VALUE_LIMIT && 0 < |data| < 0x8000_0000
      requires if fixedBlocks then Whole(|data|, blockSize) else |data| < 0x100_0000
      requires 0 <= tapePosition
      modifies this
      ensures ok ==>
                var p, n := old(tapePosition), if fixedBlocks then blockSize else |data|;
                && (p % 2 == 0 && n % 2 == 0 ==>
                      && r == Bytes(data)
                      && Here() == Place(p + |Records(p, data, n)|, old(objectLocation) + |BlocksOf(data, n)|))
                && (n < 0x100_0000 && Missed(p, data, n, EndOfDataAt(p + |Records(p, data, n)|, fileSize)) ==>
                      r == Failed(MediumError))
    {
      hide Whole;
      hide Records;
      hide Overwrite;
      hide ReadVariable;
      hide ReadFixed;
      hide Find;
      hide Missed;
      var p: nat, l := tapePosition, objectLocation;
      ghost var before, n := file, if fixedBlocks then blockSize else |data|;
      r := Failed(MediumError);
      WholeShows(|data|, blockSize);
      ok := Write(data, fixedBlocks);
      if ok {
        SomeRecords(p, data, n);
        tapePosition := p;
        objectLocation := l;
        r := Read(|data|, fixedBlocks, false);
        WrittenIsRead(before, file, p, l, data, n, fileSize, fixedBlocks, if fixedBlocks then 0 else |data|);
      }
    }
  }

  // What the READ of a WRITE meets, in either mode.
  lemma WrittenIsRead(before: seq<Byte>, file: seq<Byte>, p: nat, l: int, data: seq<Byte>, n: nat, fileSize: nat,
                      fixed: bool, info: int)
    requires 0 < n < VALUE_LIMIT && data != [] && (if fixed then Whole(|data|, n) else n == |data| < 0x100_0000)
    requires file == Overwrite(before, p, Records(p, data, n) + EndOfDataAt(p + |Records(p, data, n)|, fileSize))
    ensures var v := if fixed then ReadFixed(file, Place(p, l), |data|, n, |data|, info)
                     else Some(ReadVariable(file, Place(p, l), |data|, false, info));
            && (p % 2 == 0 && n % 2 == 0 ==>
                  v == Some(Data(data, None, Place(p + |Records(p, data, n)|, l + |BlocksOf(data, n)|))))
            && (n < 0x100_0000 && Missed(p, data, n, EndOfDataAt(p + |Records(p, data, n)|, fileSize)) ==>
                  v == Some(NotRead(MediumError)))
  {
    hide Records;
    hide Overwrite;
    hide ReadVariable;
    hide ReadFixed;
    hide Missed;
    hide BytesAt;
    var end := EndOfDataAt(p + |Records(p, data, n)|, fileSize);
    SomeRecords(p, data, n);
    OverwriteHolds(before, p, Records(p, data, n), end);
    WholeOrOne(|data|, n, fixed);
    hide Whole;
    if n < 0x100_0000 && Missed(p, data, n, end) {
      WrittenIsNotRead(before, p, l, data, n, fileSize, info);
    }
    if p % 2 == 0 && n % 2 == 0 {
      if fixed {
        WriteThenReadFixed(file, p, l, data, n, info);
      } else {
        BlocksOfOne(data);
        WriteThenReadVariable(file, p, l, data, false, info);
      }
    }
  }

  lemma WholeOrOne(count: nat, n: nat, fixed: bool)
    requires 0 < n && 0 < count && if fixed then Whole(count, n) else n == count
    ensures Whole(count, n) && n <= count
  {
    if fixed {
      WholeBlock(count, n, true);
    }
  }
}
