// Where the objects of a tape end: with an end of data mark, or with the file.
module TapeEnds {
  import opened Basics
  import opened Simh
  import opened TapeModel
  import opened TapeData

  // The four bytes that a forward search meets.
  predicate WordAt(file: seq<Byte>, p: int, b: seq<Byte>) {
    0 <= p && p + 4 <= |file| && file[p..p + 4] == b
  }

  // The end of the file ends every forward search, whatever it looks for.
  lemma MediumEnds(file: seq<Byte>, p: nat, l: int, kind: nat, n: int, read: Option<int>)
    requires |file| < p + 4
    ensures NextObject(file, Place(p, l), n, false) == NoObject(EndOfPartition(n), Place(p + 4, l))
    ensures Find(file, Place(p, l), kind, n, false, read) == Stopped(EndOfPartition(n), Place(p + 4, l))
    ensures Locate(file, Place(p, l), n % WORD_LIMIT) == LocateStopped(EndOfPartition(0), Place(p + 4, l))
  {
  }

  // What four bytes stand for, going forward: a filemark, a bad block, the end of the medium, a gap, and the private
  // markers of the program, of which the third kind is the end of data.
  lemma WordsOfTape(file: seq<Byte>, p: int, l: int, n: int, k: nat)
    requires k < 16
    ensures WordAt(file, p, [0, 0, 0, 0]) ==>
              NextObject(file, Place(p, l), n, false) == Object(1, 0, MetaData(0, 0), Place(p + 4, l + 1))
    ensures WordAt(file, p, [0, 0, 0, 0x80]) ==>
              NextObject(file, Place(p, l), n, false) == Object(0, 0, MetaData(8, 0), Place(p + 4, l + 1))
    ensures WordAt(file, p, [0xff, 0xff, 0xff, 0xff]) ==>
              NextObject(file, Place(p, l), n, false) == NoObject(EndOfPartition(n), Place(p + 4, l))
    ensures WordAt(file, p, [0xfe, 0xff, 0xff, 0xff]) ==>
              NextObject(file, Place(p, l), n, false) == NextObject(file, Place(p + 4, l), n, false)
    ensures WordAt(file, p, [0x50, 0x32, 0x53, 0x70 + k]) ==>
              NextObject(file, Place(p, l), n, false) ==
              Object(k, 0, MetaData(7, 0x100_0000 * k + 0x53_3250), Place(p + 4, l))
  {
  }

  // Class and value of the markers on a tape
  lemma MarkersOfTape()
    ensures Filemark.Head() == MetaData(0, 0) && BadBlock.Head() == MetaData(8, 0)
    ensures Gap.Head() == MetaData(15, 0xfff_fffe)
  {
  }

  // Every other marker is skipped, and so is a record of a class other than good and bad data, which is counted.
  lemma OthersAreSkipped(file: seq<Byte>, p: nat, l: int, n: int, m: MetaData)
    requires m.Valid() && WordAt(file, p, ToLittleEndian(m))
    requires m.cls !in {0, 8} && (m.cls == 15 ==> m.value != 0xfff_ffff)
    requires (m.cls == 7 ==> m.value % 0x100_0000 != 0x53_3250)
    ensures NextObject(file, Place(p, l), n, false) ==
            NextObject(file, if m.cls in {7, 15} then Place(p + 4, l) else Place(p + 8 + Pad(m.value), l + 1), n, false)
  {
    DecodeEncode(m);
  }

  // A record of class 0 or 8 is a block.
  lemma RecordsAreFound(file: seq<Byte>, p: nat, l: int, n: int, m: MetaData)
    requires m.Valid() && WordAt(file, p, ToLittleEndian(m)) && m.cls in {0, 8} && m.value > 0
    ensures NextObject(file, Place(p, l), n, false) == Object(0, m.value, m, Place(p + 4, l + 1))
  {
    DecodeEncode(m);
  }

  // What a search for blocks or filemarks, or for the end of data, passes.
  predicate Passes(objs: seq<TapeObject>, kind: nat, n: int) {
    || kind == END_OF_DATA_TYPE
    || (kind == FILEMARK && CountKind(objs, kind) < n)
    || (kind == BLOCK && CountKind(objs, kind) < n && Filemark !in objs)
  }

  // The number that is still missing behind some objects
  function Missing(objs: seq<TapeObject>, kind: nat, n: int): int {
    if kind == END_OF_DATA_TYPE then n else n - CountKind(objs, kind)
  }

  lemma FindPassesObject(file: seq<Byte>, p: nat, l: int, o: TapeObject, kind: nat, n: int)
    requires ObjectAt(file, p, o) && Passes([o], kind, n)
    ensures Find(file, Place(p, l), kind, n, false, None) ==
            Find(file, Place(p + o.Size(), if o.Gap? then l else l + 1), kind, Missing([o], kind, n), false, None)
  {
    CountKindOne(o, kind);
    if o.Gap? {
      GapIsPassed(file, p, l, n);
      FindIsEqual(file, Place(p, l), Place(p + 4, l), kind, n);
    } else {
      hide ObjectAt;
      hide NextObject;
      NextObjectForward(file, p, l, o, n);
      ForwardOverObject(file, p, o);
    }
  }

  lemma GapIsPassed(file: seq<Byte>, p: nat, l: int, n: int)
    requires ObjectAt(file, p, Gap)
    ensures NextObject(file, Place(p, l), n, false) == NextObject(file, Place(p + 4, l), n, false)
  {
    hide ObjectAt;
    hide NextObject;
    NextObjectForward(file, p, l, Gap, n);
  }

  lemma FindIsEqual(file: seq<Byte>, at: Place, next: Place, kind: nat, n: int)
    requires NextObject(file, at, n, false) == NextObject(file, next, n, false)
    ensures Find(file, at, kind, n, false, None) == Find(file, next, kind, n, false, None)
  {
    hide NextObject;
  }

  lemma PassesRest(objs: seq<TapeObject>, kind: nat, n: int)
    requires objs != [] && Passes(objs, kind, n)
    ensures Passes([objs[0]], kind, n) && Passes(objs[1..], kind, Missing([objs[0]], kind, n))
    ensures Missing(objs, kind, n) == Missing(objs[1..], kind, Missing([objs[0]], kind, n))
  {
    CountKindOne(objs[0], kind);
    assert objs == [objs[0]] + objs[1..];
  }

  // A search passes a row of objects, and goes on with what is missing.
  lemma {:induction false} FindPassesAll(file: seq<Byte>, p: nat, l: int, objs: seq<TapeObject>, kind: nat, n: int)
    requires Holds(file, p, objs) && Passes(objs, kind, n)
    ensures Find(file, Place(p, l), kind, n, false, None) ==
            Find(file, Place(End(p, objs), l + CountedObjects(objs)), kind, Missing(objs, kind, n), false, None)
    decreases |objs|
  {
    hide Find;
    hide ObjectAt;
    hide Passes;
    if objs != [] {
      var o, rest := objs[0], objs[1..];
      HoldsRest(file, p, objs);
      PassesRest(objs, kind, n);
      FindPassesObject(file, p, l, o, kind, n);
      FindPassesAll(file, p + o.Size(), if o.Gap? then l else l + 1, rest, kind, Missing([o], kind, n));
    }
  }

  // SPACE over more than there is: behind the objects the search is stopped by the end of data mark, in front of it, or
  // by the end of the file, and the information is what is missing. A search for the end of data finds the mark only.
  lemma SpaceRunsOut(file: seq<Byte>, p: nat, l: int, objs: seq<TapeObject>, kind: nat, n: int)
    requires Holds(file, p, objs) && Passes(objs, kind, n)
    ensures var e, k := End(p, objs), l + CountedObjects(objs);
            var f := Find(file, Place(p, l), kind, n, false, None);
            && (|file| < e + 4 ==> f == Stopped(EndOfPartition(Missing(objs, kind, n)), Place(e + 4, k)))
            && (WordAt(file, e, [0x50, 0x32, 0x53, 0x73]) ==>
                  if kind == END_OF_DATA_TYPE then f.Found? && f.place == Place(e + 4, k)
                  else f == Stopped(EndOfData(Missing(objs, kind, n)), Place(e, k)))
  {
    hide Find;
    hide ObjectAt;
    FindPassesAll(file, p, l, objs, kind, n);
    var e := End(p, objs);
    if |file| < e + 4 {
      MediumEnds(file, e, l + CountedObjects(objs), kind, Missing(objs, kind, n), None);
    } else if WordAt(file, e, [0x50, 0x32, 0x53, 0x73]) {
      MarkIsEndOfData(file, e);
      EndOfDataStops(file, e, l + CountedObjects(objs), kind, Missing(objs, kind, n), None);
    }
  }

  lemma MarkIsEndOfData(file: seq<Byte>, p: nat)
    ensures WordAt(file, p, [0x50, 0x32, 0x53, 0x73]) <==> MetaAt(file, p, END_OF_DATA)
  {
  }

  // READ behind the last object: behind gaps there is the mark or the end of the file.
  lemma {:induction false} ReadRunsOut(file: seq<Byte>, p: nat, l: int, gaps: seq<TapeObject>, info: int)
    requires Holds(file, p, gaps) && (forall g :: g in gaps ==> g.Gap?)
    ensures var e := End(p, gaps);
            var f := Find(file, Place(p, l), BLOCK, 0, false, Some(info));
            && (|file| < e + 4 ==> f == Stopped(EndOfPartition(0), Place(e + 4, l)))
            && (WordAt(file, e, [0x50, 0x32, 0x53, 0x73]) ==> f == Stopped(EndOfData(0), Place(e, l)))
    decreases |gaps|
  {
    hide Find;
    hide ObjectAt;
    hide NextObject;
    if gaps == [] {
      MarkIsEndOfData(file, p);
      if |file| < p + 4 {
        MediumEnds(file, p, l, BLOCK, 0, Some(info));
      } else if WordAt(file, p, [0x50, 0x32, 0x53, 0x73]) {
        EndOfDataStops(file, p, l, BLOCK, 0, Some(info));
      }
    } else {
      assert gaps[0] in gaps && forall g :: g in gaps[1..] ==> g in gaps;
      HoldsRest(file, p, gaps);
      NextObjectForward(file, p, l, gaps[0], 0);
      FindSkips(file, Place(p, l), Place(p + 4, l), info);
      ReadRunsOut(file, p + 4, l, gaps[1..], info);
    }
  }

  // So a READ in either mode ends with this error and nothing else.
  lemma ReadOfNothing(file: seq<Byte>, p: nat, l: int, gaps: seq<TapeObject>, count: nat, size: nat, sili: bool,
                      info: int)
    requires Holds(file, p, gaps) && (forall g :: g in gaps ==> g.Gap?) && 0 < size <= count
    requires |file| < End(p, gaps) + 4 || WordAt(file, End(p, gaps), [0x50, 0x32, 0x53, 0x73])
    ensures var stop := if |file| < End(p, gaps) + 4 then EndOfPartition(0) else EndOfData(0);
            && ReadVariable(file, Place(p, l), count, sili, info) == NotRead(stop)
            && ReadFixed(file, Place(p, l), count, size, count, info) == Some(NotRead(stop))
  {
    hide Find;
    ReadRunsOut(file, p, l, gaps, info);
  }

  // LOCATE of an object that does not exist on a tape without an end of data mark
  lemma {:induction false} LocateRunsOut(file: seq<Byte>, p: nat, l: int, objs: seq<TapeObject>, n: nat)
    requires Holds(file, p, objs) && |file| < End(p, objs) + 4 && CountedObjects(objs) < n < WORD_LIMIT
    ensures Locate(file, Place(p, l), n) ==
            LocateStopped(EndOfPartition(0), Place(End(p, objs) + 4, l + CountedObjects(objs)))
    decreases |objs|
  {
    hide Locate;
    hide ObjectAt;
    if objs == [] {
      MediumEnds(file, p, l, BLOCK, n, None);
    } else {
      var o, rest := objs[0], objs[1..];
      HoldsRest(file, p, objs);
      LocateOverObject(file, p, l, o, n, p + o.Size());
      LocateRunsOut(file, p + o.Size(), if o.Gap? then l else l + 1, rest, if o.Gap? then n else n - 1);
    }
  }

  // What a WRITE puts behind its records
  lemma MarkOfWrite(at: nat, fileSize: nat)
    ensures EndOfDataAt(at, fileSize) == if at + 4 <= fileSize then [0x50, 0x32, 0x53, 0x73] else []
  {
  }

  // In front of the file nothing can be read.
  lemma NothingInFront(file: seq<Byte>, p: int, l: int, kind: nat, n: int, read: Option<int>)
    requires p < 0
    ensures Find(file, Place(p, l), kind, n, false, read) == Stopped(MediumError, Place(p, l))
  {
  }

  // A search passes the markers of the program that are of another kind, but LOCATE stops at any of them.
  lemma MarkersArePassed(file: seq<Byte>, p: int, l: int, kind: nat, n: int, k: nat)
    requires k < 16 && k !in {BLOCK, FILEMARK, END_OF_DATA_TYPE} && kind in {BLOCK, FILEMARK, END_OF_DATA_TYPE}
    requires WordAt(file, p, [0x50, 0x32, 0x53, 0x70 + k])
    ensures Find(file, Place(p, l), kind, n, false, None) == Find(file, Place(p + 4, l), kind, n, false, None)
  {
    hide NextObject;
    WordsOfTape(file, p, l, n, k);
  }

  lemma LocateStopsAtMarker(file: seq<Byte>, p: int, l: int, n: nat, k: nat)
    requires k < 16 && WordAt(file, p, [0x50, 0x32, 0x53, 0x70 + k])
    ensures Locate(file, Place(p, l), n) == NotFound(Place(p + 4, l))
  {
    hide NextObject;
    WordsOfTape(file, p, l, 0, k);
  }
}
