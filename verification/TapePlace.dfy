// Where a tape device can be on a recorded tape: between two objects, with the number of objects in front of it as the
// object location.
module TapePlaces {
  import opened Basics
  import opened Simh
  import opened TapeModel
  import opened TapeData

  // The tape holds these objects and then the end of data. A drive writes no record of 2^24 bytes or more.
  predicate Recorded(file: seq<Byte>, objs: seq<TapeObject>) {
    && Holds(file, 0, objs) && End(0, objs) >= 0 && MetaAt(file, End(0, objs), END_OF_DATA)
    && AllShort(objs)
  }

  predicate AllShort(objs: seq<TapeObject>) {
    forall o :: o in objs && o.Block? ==> |o.data| < 0x100_0000
  }

  // The place behind the first k objects
  function Behind(objs: seq<TapeObject>, k: nat): Place
    requires k <= |objs|
  {
    Place(End(0, objs[..k]), CountedObjects(objs[..k]))
  }

  predicate Between(objs: seq<TapeObject>, at: Place) {
    exists k: nat :: k <= |objs| && at == Behind(objs, k)
  }

  lemma BehindIsBetween(objs: seq<TapeObject>, k: nat)
    requires k <= |objs|
    ensures Between(objs, Behind(objs, k))
  {
  }

  lemma AtTheEnd(objs: seq<TapeObject>)
    ensures Behind(objs, |objs|) == Place(End(0, objs), CountedObjects(objs)) && Behind(objs, 0) == Place(0, 0)
  {
    assert objs[..|objs|] == objs;
  }

  // One object further
  lemma BehindNext(file: seq<Byte>, objs: seq<TapeObject>, k: nat)
    requires Holds(file, 0, objs) && k < |objs|
    ensures var o, at := objs[k], Behind(objs, k);
            && at.position >= 0 && ObjectAt(file, at.position, o)
            && Behind(objs, k + 1) == Place(at.position + o.Size(), at.location + if o.Gap? then 0 else 1)
  {
    hide ObjectAt;
    var front, o := objs[..k], objs[k];
    assert objs[..k + 1] == front + [o] && objs == objs[..k + 1] + objs[k + 1..];
    assert [o][1..] == [];
    HoldsSplit(file, 0, objs[..k + 1], objs[k + 1..]);
    HoldsSplit(file, 0, front, [o]);
  }

  lemma FindIsSame(file: seq<Byte>, at: Place, next: Place, kind: nat, count: int, reverse: bool, read: Option<int>)
    requires NextObject(file, at, count, reverse) == NextObject(file, next, count, reverse)
    ensures Find(file, at, kind, count, reverse, read) == Find(file, next, kind, count, reverse, read)
  {
    hide NextObject;
  }

  // ---- Searching ----

  lemma {:induction false} FindForwardStays(file: seq<Byte>, objs: seq<TapeObject>, k: nat, kind: nat, count: int,
                                            read: Option<int>)
    requires Recorded(file, objs) && k <= |objs| && (kind == END_OF_DATA_TYPE ==> read.None?)
    ensures var f := Find(file, Behind(objs, k), kind, count, false, read);
            if kind == END_OF_DATA_TYPE then
              f == Found(END_OF_DATA, Place(End(0, objs) + META_DATA_SIZE, CountedObjects(objs)))
            else Between(objs, f.place)
    decreases |objs| - k
  {
    hide Find;
    hide NextObject;
    hide ObjectAt;
    AtTheEnd(objs);
    BehindIsBetween(objs, k);
    if k == |objs| {
      EndOfDataStops(file, End(0, objs), CountedObjects(objs), kind, count, read);
    } else {
      BehindNext(file, objs, k);
      BehindIsBetween(objs, k + 1);
      var o, at, next := objs[k], Behind(objs, k), Behind(objs, k + 1);
      NextObjectForward(file, at.position, at.location, o, count);
      ForwardOverObject(file, at.position, o);
      if o.Gap? {
        FindIsSame(file, at, next, kind, count, false, read);
        FindForwardStays(file, objs, k + 1, kind, count, read);
      } else {
        FindForwardStep(file, at, o, next, kind, count, read);
        FindForwardStays(file, objs, k + 1, kind,
                         if kind != END_OF_DATA_TYPE && KindOf(o) == kind then count - 1 else count, read);
      }
    }
  }

  // A search finds the object, or is stopped by it, or goes on behind it.
  lemma FindForwardStep(file: seq<Byte>, at: Place, o: TapeObject, next: Place, kind: nat, count: int,
                        read: Option<int>)
    requires at.position >= 0 && ObjectAt(file, at.position, o) && !o.Gap?
    requires next == Place(at.position + o.Size(), at.location + 1)
    ensures var f := Find(file, at, kind, count, false, read);
            || (f.place == next && (kind == END_OF_DATA_TYPE ==> read.Some?))
            || f == Find(file, next, kind,
                         if kind != END_OF_DATA_TYPE && KindOf(o) == kind then count - 1 else count, false, read)
  {
    hide ObjectAt;
    hide NextObject;
    NextObjectForward(file, at.position, at.location, o, count);
    ForwardOverObject(file, at.position, o);
  }

  lemma {:induction false} FindBackStays(file: seq<Byte>, objs: seq<TapeObject>, k: nat, kind: nat, count: int)
    requires Holds(file, 0, objs) && k <= |objs|
    ensures Between(objs, Find(file, Behind(objs, k), kind, count, true, None).place)
    decreases k
  {
    hide Find;
    hide NextObject;
    hide ObjectAt;
    AtTheEnd(objs);
    BehindIsBetween(objs, 0);
    if k == 0 {
      BeginningEnds(file, kind, count);
    } else {
      BehindNext(file, objs, k - 1);
      BehindIsBetween(objs, k - 1);
      var o, at, next := objs[k - 1], Behind(objs, k), Behind(objs, k - 1);
      NextObjectBack(file, next.position, at.location, o, count);
      if o.Gap? {
        FindIsSame(file, at, next, kind, count, true, None);
        FindBackStays(file, objs, k - 1, kind, count);
      } else {
        FindBackStep(file, at, o, next, kind, count);
        FindBackStays(file, objs, k - 1, kind,
                      if kind != END_OF_DATA_TYPE && KindOf(o) == kind then count - 1 else count);
      }
    }
  }

  lemma BeginningEnds(file: seq<Byte>, kind: nat, count: int)
    ensures Find(file, Place(0, 0), kind, count, true, None) == Stopped(BeginningOfPartition(count), Place(0, 0))
  {
  }

  lemma FindBackStep(file: seq<Byte>, at: Place, o: TapeObject, next: Place, kind: nat, count: int)
    requires next.position >= 0 && ObjectAt(file, next.position, o) && !o.Gap?
    requires at == Place(next.position + o.Size(), next.location + 1)
    ensures var f := Find(file, at, kind, count, true, None);
            || f.place == next
            || f == Find(file, next, kind,
                         if kind != END_OF_DATA_TYPE && KindOf(o) == kind then count - 1 else count, true, None)
  {
    hide ObjectAt;
    hide NextObject;
    NextObjectBack(file, next.position, at.location, o, count);
  }

  // LOCATE ends between two objects, or behind the end of data if there are too few.
  lemma {:induction false} LocateStays(file: seq<Byte>, objs: seq<TapeObject>, k: nat, n: nat)
    requires Recorded(file, objs) && k <= |objs|
    ensures var r := Locate(file, Behind(objs, k), n);
            if r.Located? then Between(objs, r.place)
            else r == NotFound(Place(End(0, objs) + META_DATA_SIZE, CountedObjects(objs)))
    decreases |objs| - k
  {
    hide Locate;
    hide NextObject;
    hide ObjectAt;
    AtTheEnd(objs);
    if k == |objs| {
      LocateAtTheEnd(file, End(0, objs), CountedObjects(objs), n);
    } else {
      BehindNext(file, objs, k);
      BehindIsBetween(objs, k + 1);
      var o, at, next := objs[k], Behind(objs, k), Behind(objs, k + 1);
      LocateForwardStep(file, at, o, next, n);
      LocateStays(file, objs, k + 1, if o.Gap? then n else (n + WORD_LIMIT - 1) % WORD_LIMIT);
    }
  }

  lemma LocateAtTheEnd(file: seq<Byte>, p: nat, l: int, n: nat)
    requires MetaAt(file, p, END_OF_DATA)
    ensures Locate(file, Place(p, l), n) == NotFound(Place(p + META_DATA_SIZE, l))
  {
    DecodeEncode(END_OF_DATA);
  }

  lemma LocateForwardStep(file: seq<Byte>, at: Place, o: TapeObject, next: Place, n: nat)
    requires at.position >= 0 && ObjectAt(file, at.position, o)
    requires next == Place(at.position + o.Size(), at.location + if o.Gap? then 0 else 1)
    ensures var r := Locate(file, at, n);
            || (!o.Gap? && r == Located(next))
            || r == Locate(file, next, if o.Gap? then n else (n + WORD_LIMIT - 1) % WORD_LIMIT)
  {
    hide ObjectAt;
    hide NextObject;
    NextObjectForward(file, at.position, at.location, o, 0);
    ForwardOverObject(file, at.position, o);
  }

  // ---- Reading ----

  // The search of a READ ends behind a block if there is one to be read, and between two objects in any case.
  lemma {:induction false} ReadableIsBlock(file: seq<Byte>, objs: seq<TapeObject>, k: nat, info: int) returns (j: nat)
    requires Recorded(file, objs) && k <= |objs|
    ensures var f := Find(file, Behind(objs, k), BLOCK, 0, false, Some(info));
            if IsReadable(f) then
              && j < |objs| && objs[j].Block? && f.Found? && f.meta == objs[j].Head() && f.meta.value == |objs[j].data|
              && f.place == Behind(objs, j + 1)
            else Between(objs, f.place)
    decreases |objs| - k
  {
    hide Find;
    hide NextObject;
    hide ObjectAt;
    AtTheEnd(objs);
    BehindIsBetween(objs, k);
    j := k;
    if k == |objs| {
      EndOfDataStops(file, End(0, objs), CountedObjects(objs), BLOCK, 0, Some(info));
    } else {
      BehindNext(file, objs, k);
      BehindIsBetween(objs, k + 1);
      var o, at, next := objs[k], Behind(objs, k), Behind(objs, k + 1);
      NextObjectForward(file, at.position, at.location, o, 0);
      if o.Gap? {
        FindIsSame(file, at, next, BLOCK, 0, false, Some(info));
        j := ReadableIsBlock(file, objs, k + 1, info);
      } else {
        FirstIsRead(file, at, o, next, info);
      }
    }
  }

  lemma FirstIsRead(file: seq<Byte>, at: Place, o: TapeObject, next: Place, info: int)
    requires at.position >= 0 && ObjectAt(file, at.position, o) && !o.Gap?
    requires next == Place(at.position + o.Size(), at.location + 1)
    ensures var f := Find(file, at, BLOCK, 0, false, Some(info));
            f.place == next && (IsReadable(f) ==> o.Block? && f.meta == o.Head() && f.meta.value == |o.data|)
  {
    ObjectIsValid(file, at.position, o);
    NextObjectForward(file, at.position, at.location, o, 0);
    ForwardOverObject(file, at.position, o);
    hide ObjectAt;
    hide NextObject;
  }

  predicate AllEven(objs: seq<TapeObject>) {
    forall o :: o in objs && o.Block? ==> |o.data| % 2 == 0
  }

  // A READ in variable mode leaves the tape between two objects, unless it meets a record of odd length.
  lemma ReadVariableStays(file: seq<Byte>, objs: seq<TapeObject>, k: nat, count: nat, sili: bool, info: int)
    requires Recorded(file, objs) && k <= |objs| && 0 < count
    ensures var f, r := Find(file, Behind(objs, k), BLOCK, 0, false, Some(info)),
                        ReadVariable(file, Behind(objs, k), count, sili, info);
            && (!IsReadable(f) ==> Between(objs, f.place))
            && (r.Data? ==> Between(objs, r.place))
            && (IsReadable(f) && AllEven(objs) ==> r.Data?)
            && (IsReadable(f) && !r.Data? ==> r == NotRead(MediumError))
  {
    hide Find;
    hide ObjectAt;
    var at := Behind(objs, k);
    var f := Find(file, at, BLOCK, 0, false, Some(info));
    var j := ReadableIsBlock(file, objs, k, info);
    if IsReadable(f) {
      var o := objs[j];
      BehindNext(file, objs, j);
      BehindIsBetween(objs, j + 1);
      if |o.data| % 2 == 0 {
        ReadFoundEven(file, Behind(objs, j).position, o, f.place.location, count, sili);
      } else {
        ReadFoundOdd(file, Behind(objs, j).position, o, f.place.location, count, sili);
      }
    }
  }

  lemma {:induction false} ReadFixedStays(file: seq<Byte>, objs: seq<TapeObject>, k: nat, count: nat, size: nat,
                                          total: nat, info: int)
    requires Recorded(file, objs) && k <= |objs| && 0 < size
    ensures var r := ReadFixed(file, Behind(objs, k), count, size, total, info);
            r.Some? && r.value.Data? ==> Between(objs, r.value.place)
    decreases count
  {
    hide Find;
    hide ObjectAt;
    hide ReadFixed;
    var at := Behind(objs, k);
    BehindIsBetween(objs, k);
    if count < size {
      NoMoreBlocks(file, at, count, size, total, info);
    } else {
      var f := Find(file, at, BLOCK, 0, false, Some(info));
      var j := ReadableIsBlock(file, objs, k, info);
      if IsReadable(f) {
        BehindNext(file, objs, j);
        ReadFixedStep(file, at, count, size, total, info);
        FixedChunkEnds(file, Behind(objs, j).position, objs[j], size);
        ReadFixedStays(file, objs, j + 1, count - size, size, total, info);
      } else {
        UnreadableEnds(file, at, count, size, total, info);
      }
    }
  }

  lemma NoMoreBlocks(file: seq<Byte>, at: Place, count: nat, size: nat, total: nat, info: int)
    requires count < size
    ensures ReadFixed(file, at, count, size, total, info) == Some(Data([], None, at))
  {
  }

  // A chunk that was read in fixed mode ends behind its record.
  lemma FixedChunkEnds(file: seq<Byte>, p: nat, o: TapeObject, size: nat)
    requires ObjectAt(file, p, o) && o.Block? && |o.data| < 0x100_0000
    ensures var start := p + o.Size() - |o.data| - META_DATA_SIZE;
            var q := ChunkEnd(file, start, size, start, |o.data|, true);
            q.Some? ==> q.value == p + o.Size()
  {
    BlockBytes(file, p, o);
    if |o.data| % 2 == 1 {
      OddTrailerFails(file, p, o);
    }
    hide ObjectAt;
    hide TrailerFits;
  }

  // ---- The commands of the device ----

  // From between two objects to between two objects, whatever the tape holds
  ghost predicate StaysBetween(file: seq<Byte>, before: Place, after: Place) {
    forall objs :: Recorded(file, objs) && Between(objs, before) ==> Between(objs, after)
  }

  ghost function IndexOf(objs: seq<TapeObject>, at: Place): (k: nat)
    requires Between(objs, at)
    ensures k <= |objs| && at == Behind(objs, k)
  {
    var k: nat :| k <= |objs| && at == Behind(objs, k);
    k
  }

  lemma StandingStays(file: seq<Byte>, at: Place)
    ensures StaysBetween(file, at, at)
  {
  }

  // SPACE, whose search is over or stops in front of the end of data
  lemma SpacingStays(file: seq<Byte>, at: Place, kind: nat, count: int, reverse: bool)
    requires reverse ==> kind != END_OF_DATA_TYPE
    ensures var f := Find(file, at, kind, count, reverse, None);
            StaysBetween(file, at, if kind == END_OF_DATA_TYPE && f.Found?
                                   then f.place.(position := f.place.position - META_DATA_SIZE) else f.place)
  {
    hide Find;
    hide Between;
    hide Recorded;
    forall objs | Recorded(file, objs) && Between(objs, at)
      ensures var f := Find(file, at, kind, count, reverse, None);
              Between(objs, if kind == END_OF_DATA_TYPE && f.Found?
                            then f.place.(position := f.place.position - META_DATA_SIZE) else f.place)
    {
      SearchStays(file, objs, at, kind, count, reverse);
    }
  }

  lemma SearchStays(file: seq<Byte>, objs: seq<TapeObject>, at: Place, kind: nat, count: int, reverse: bool)
    requires Recorded(file, objs) && Between(objs, at) && (reverse ==> kind != END_OF_DATA_TYPE)
    ensures var f := Find(file, at, kind, count, reverse, None);
            Between(objs, if kind == END_OF_DATA_TYPE && f.Found?
                          then f.place.(position := f.place.position - META_DATA_SIZE) else f.place)
  {
    hide Find;
    var k := IndexOf(objs, at);
    if reverse {
      FindBackStays(file, objs, k, kind, count);
    } else {
      FindForwardStays(file, objs, k, kind, count, None);
      AtTheEnd(objs);
      BehindIsBetween(objs, |objs|);
    }
  }

  // LOCATE, from the beginning of the tape
  lemma LocatingStays(file: seq<Byte>, at: Place, n: nat)
    ensures var r := Locate(file, Place(0, 0), n); r.Located? ==> StaysBetween(file, at, r.place)
    ensures StaysBetween(file, at, Place(0, 0))
  {
    hide Locate;
    hide Recorded;
    forall objs | Recorded(file, objs)
      ensures Between(objs, Place(0, 0))
      ensures var r := Locate(file, Place(0, 0), n); r.Located? ==> Between(objs, r.place)
    {
      AtTheEnd(objs);
      BehindIsBetween(objs, 0);
      LocateStays(file, objs, 0, n);
    }
  }

  // A READ that has found nothing to read ends where its search has ended.
  lemma NotReadingStays(file: seq<Byte>, at: Place, info: int)
    ensures var f := Find(file, at, BLOCK, 0, false, Some(info)); !IsReadable(f) ==> StaysBetween(file, at, f.place)
  {
    hide Find;
    hide Recorded;
    hide Between;
    hide IsReadable;
    forall objs | Recorded(file, objs) && Between(objs, at)
      ensures var f := Find(file, at, BLOCK, 0, false, Some(info)); !IsReadable(f) ==> Between(objs, f.place)
    {
      var j := ReadableIsBlock(file, objs, IndexOf(objs, at), info);
    }
  }

  lemma ReadingStays(file: seq<Byte>, at: Place, count: nat, sili: bool, info: int)
    requires 0 < count
    ensures var r := ReadVariable(file, at, count, sili, info); r.Data? ==> StaysBetween(file, at, r.place)
  {
    hide Find;
    hide Recorded;
    hide Between;
    hide ReadVariable;
    forall objs | Recorded(file, objs) && Between(objs, at)
      ensures var r := ReadVariable(file, at, count, sili, info); r.Data? ==> Between(objs, r.place)
    {
      ReadVariableStays(file, objs, IndexOf(objs, at), count, sili, info);
    }
  }

  // The same of a tape without records of odd length
  ghost predicate StaysBetweenEven(file: seq<Byte>, before: Place, after: Place) {
    forall objs :: Recorded(file, objs) && AllEven(objs) && Between(objs, before) ==> Between(objs, after)
  }

  lemma ReadingEvenStays(file: seq<Byte>, at: Place, count: nat, sili: bool, info: int)
    requires 0 < count
    ensures var f, r := Find(file, at, BLOCK, 0, false, Some(info)), ReadVariable(file, at, count, sili, info);
            IsReadable(f) && !r.Data? ==> r == NotRead(MediumError) && forall to :: StaysBetweenEven(file, at, to)
  {
    hide Find;
    hide Recorded;
    hide Between;
    hide ReadVariable;
    hide IsReadable;
    var f, r := Find(file, at, BLOCK, 0, false, Some(info)), ReadVariable(file, at, count, sili, info);
    if IsReadable(f) && !r.Data? {
      forall objs | Recorded(file, objs) && Between(objs, at)
        ensures !AllEven(objs)
      {
        ReadVariableStays(file, objs, IndexOf(objs, at), count, sili, info);
      }
      OnlyMediumError(file, at, count, sili, info);
    }
  }

  lemma OnlyMediumError(file: seq<Byte>, at: Place, count: nat, sili: bool, info: int)
    ensures var f, r := Find(file, at, BLOCK, 0, false, Some(info)), ReadVariable(file, at, count, sili, info);
            IsReadable(f) && !r.Data? ==> r == NotRead(MediumError)
  {
    hide Find;
  }

  lemma StaysEven(file: seq<Byte>, before: Place, after: Place)
    requires StaysBetween(file, before, after)
    ensures StaysBetweenEven(file, before, after)
  {
  }

  // All that a READ of one record can do
  lemma RecordStays(file: seq<Byte>, at: Place, count: nat, sili: bool, to: Place)
    requires 0 < count
    requires var f, r := Find(file, at, BLOCK, 0, false, Some(count)), ReadVariable(file, at, count, sili, count);
             (r.Data? ==> to == r.place) && (!IsReadable(f) ==> to == f.place)
    ensures ReadVariable(file, at, count, sili, count) != NotRead(MediumError) ==> StaysBetween(file, at, to)
    ensures StaysBetweenEven(file, at, to)
  {
    hide *;
    var f, r := Find(file, at, BLOCK, 0, false, Some(count)), ReadVariable(file, at, count, sili, count);
    NotReadingStays(file, at, count);
    ReadingStays(file, at, count, sili, count);
    ReadingEvenStays(file, at, count, sili, count);
    if !IsReadable(f) || r.Data? {
      StaysEven(file, at, to);
    }
  }

  lemma ReadingBlocksStays(file: seq<Byte>, at: Place, count: nat, size: nat, total: nat, info: int)
    requires 0 < size
    ensures var r := ReadFixed(file, at, count, size, total, info);
            r.Some? && r.value.Data? ==> StaysBetween(file, at, r.value.place)
  {
    hide Find;
    hide Recorded;
    hide Between;
    hide ReadFixed;
    forall objs | Recorded(file, objs) && Between(objs, at)
      ensures var r := ReadFixed(file, at, count, size, total, info);
              r.Some? && r.value.Data? ==> Between(objs, r.value.place)
    {
      ReadFixedStays(file, objs, IndexOf(objs, at), count, size, total, info);
    }
  }

  // A WRITE behind some of the objects: these and the new blocks are on the tape, which ends behind them if there is
  // room for the end of data.
  ghost predicate WritesBehind(before: seq<Byte>, from: Place, after: seq<Byte>, to: Place, blocks: seq<TapeObject>,
                               ends: bool) {
    forall objs :: OnTape(before, objs, from) ==> Added(objs, after, to, blocks, ends)
  }

  predicate Added(objs: seq<TapeObject>, after: seq<Byte>, to: Place, blocks: seq<TapeObject>, ends: bool) {
    && OnTape(after, objs + blocks, to)
    && (AllShort(objs + blocks) && ends ==> Recorded(after, objs + blocks) && Between(objs + blocks, to))
  }

  lemma WritingIsBehind(file: seq<Byte>, at: Place, data: seq<Byte>, n: nat, e: seq<Byte>)
    requires at.position >= 0 && 0 < n < VALUE_LIMIT && data != [] && (e == [] || e == ToLittleEndian(END_OF_DATA))
    ensures var r, b := Records(at.position, data, n), BlocksOf(data, n);
            WritesBehind(file, at, Overwrite(file, at.position, r + e),
                         Place(at.position + |r|, at.location + |b|), b, e != [])
  {
    hide Overwrite;
    hide Records;
    hide BlocksOf;
    hide ToLittleEndian;
    hide OnTape;
    hide Added;
    var r, b := Records(at.position, data, n), BlocksOf(data, n);
    var after, to := Overwrite(file, at.position, r + e), Place(at.position + |r|, at.location + |b|);
    forall objs | OnTape(file, objs, at)
      ensures Added(objs, after, to, b, e != [])
    {
      WritingBehindObjects(file, objs, at, data, n, e);
    }
  }

  lemma WritingBehindObjects(file: seq<Byte>, objs: seq<TapeObject>, at: Place, data: seq<Byte>, n: nat, e: seq<Byte>)
    requires OnTape(file, objs, at) && at.position >= 0 && 0 < n < VALUE_LIMIT && data != []
    requires e == [] || e == ToLittleEndian(END_OF_DATA)
    ensures var r, b := Records(at.position, data, n), BlocksOf(data, n);
            var after, to := Overwrite(file, at.position, r + e), Place(at.position + |r|, at.location + |b|);
            Added(objs, after, to, b, e != [])
  {
    hide Overwrite;
    hide Records;
    hide BlocksOf;
    hide ToLittleEndian;
    hide OnTape;
    hide AllShort;
    hide Recorded;
    hide Between;
    var r, b := Records(at.position, data, n), BlocksOf(data, n);
    WritingStaysOnTape(file, objs, at, data, n, e);
    if AllShort(objs + b) && e != [] {
      EndIsWritten(file, at.position, r, e);
      OnTapeIsRecorded(Overwrite(file, at.position, r + e), objs + b, Place(at.position + |r|, at.location + |b|));
    }
  }

  lemma EndIsWritten(file: seq<Byte>, p: nat, r: seq<Byte>, e: seq<Byte>)
    requires e == ToLittleEndian(END_OF_DATA)
    ensures MetaAt(Overwrite(file, p, r + e), p + |r|, END_OF_DATA)
  {
    hide Overwrite;
    OverwriteHolds(file, p, r + e, []);
    assert r + e + [] == r + e;
    BytesSplit(Overwrite(file, p, r + e), p, r, e);
  }

  lemma OnTapeIsRecorded(file: seq<Byte>, objs: seq<TapeObject>, at: Place)
    requires OnTape(file, objs, at) && at.position >= 0 && MetaAt(file, at.position, END_OF_DATA)
    requires AllShort(objs)
    ensures Recorded(file, objs) && Between(objs, at)
  {
    AtTheEnd(objs);
    BehindIsBetween(objs, |objs|);
  }
}
