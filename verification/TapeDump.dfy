// Dumping a tape to a SIMH image, with a block length that adapts to the records, and restoring an image.
module TapeDumps {
  import opened Basics
  import opened Simh
  import opened TapeModel
  import opened TapeData
  import opened TapeEnds
  import opened Tapes

  const MAX_LENGTH: nat := 0xff_ffff

  // What one read of the dump finds.
  datatype Outcome = BlockRead(data: seq<Byte>) | BadBlockRead | FilemarkRead | NoMoreData | NotReadable

  // What a restore asks the tape to do. The length of a block goes into a field of 24 bits.
  datatype Replay = WriteBlock(length: nat, data: seq<Byte>) | WriteFilemark

  function BlockRequest(data: seq<Byte>): Replay {
    WriteBlock(|data| % 0x100_0000, data)
  }

  // An image of what has been read
  function ImageOf(o: Outcome): seq<Byte> {
    match o
    case BlockRead(data) => if |data| < VALUE_LIMIT then Good(|data|) + data + Good(|data|) else []
    case BadBlockRead => [0, 0, 0, 0x80]
    case FilemarkRead => [0, 0, 0, 0]
    case _ => []
  }

  function Image(os: seq<Outcome>): seq<Byte> {
    if os == [] then [] else ImageOf(os[0]) + Image(os[1..])
  }

  // The buffer, resized for a record: it keeps what it had, and what is new in it is 0.
  function Resized(buffer: seq<Byte>, n: nat): (r: seq<Byte>)
    ensures |r| == n
  {
    if n <= |buffer| then buffer[..n] else buffer + seq(n - |buffer|, _ => 0)
  }

  // The buffer behind reading a record. Of a record that the end of the file cuts off it takes what there is, and keeps
  // what it had before for the rest.
  function BufferAfter(file: seq<Byte>, p: nat, n: nat, buffer: seq<Byte>): (r: seq<Byte>)
    ensures |r| == n
    ensures p + n <= |file| ==> r == file[p..p + n]
    ensures forall i :: 0 <= i < n ==>
              r[i] == if p + i < |file| then file[p + i] else if i < |buffer| then buffer[i] else 0
  {
    if p + n <= |file| then file[p..p + n]
    else if p < |file| then file[p..] + Resized(buffer, n)[|file| - p..]
    else Resized(buffer, n)
  }

  // The restore of an image from a position on. A data record that the end of the file cuts off is the last one.
  function Restored(file: seq<Byte>, p: nat, buffer: seq<Byte>): seq<Replay>
    decreases if p < |file| then |file| - p else 0
  {
    var m := ReadMetaData(file, p).value;
    if m == MetaData(RESERVED_MARKER, END_OF_MEDIUM) then []
    else if m.cls == GOOD_DATA && m.value == 0 then [WriteFilemark] + Restored(file, p + 4, buffer)
    else if (m.cls == GOOD_DATA || m.cls == BAD_DATA) && m.value != 0 then
      var after := BufferAfter(file, p + 4, m.value, buffer);
      [BlockRequest(after)] + if p + 4 + m.value > |file| then [] else Restored(file, p + 8 + m.value, after)
    else Restored(file, p + 4, buffer)
  }

  // Unrecovered bad blocks are dropped.
  function Replayed(os: seq<Outcome>): seq<Replay> {
    if os == [] then []
    else
      (match os[0]
       case BlockRead(data) => [WriteBlock(|data|, data)]
       case FilemarkRead => [WriteFilemark]
       case _ => []) + Replayed(os[1..])
  }

  predicate IsDumpable(o: Outcome) {
    (o.BlockRead? && 0 < |o.data| <= MAX_LENGTH) || o.BadBlockRead? || o.FilemarkRead?
  }

  lemma MarkersAreMetaData()
    ensures ToLittleEndian(MetaData(BAD_DATA, 0)) == [0, 0, 0, 0x80]
    ensures ToLittleEndian(MetaData(GOOD_DATA, 0)) == [0, 0, 0, 0]
  {
  }

  lemma MetaThere(file: seq<Byte>, p: nat, m: MetaData)
    requires m.Valid() && BytesAt(file, p, ToLittleEndian(m))
    ensures ReadMetaData(file, p) == Some(m)
  {
    DecodeEncode(m);
  }

  lemma RestoreMarker(file: seq<Byte>, p: nat, cls: nat, buffer: seq<Byte>)
    requires cls in {GOOD_DATA, BAD_DATA} && BytesAt(file, p, ToLittleEndian(MetaData(cls, 0)))
    ensures Restored(file, p, buffer) == (if cls == GOOD_DATA then [WriteFilemark] else [])
            + Restored(file, p + 4, buffer)
  {
    MetaThere(file, p, MetaData(cls, 0));
    hide ReadMetaData;
    hide BytesAt;
    assert [] + Restored(file, p + 4, buffer) == Restored(file, p + 4, buffer);
  }

  lemma RestoreBlock(file: seq<Byte>, p: nat, data: seq<Byte>, buffer: seq<Byte>)
    requires 0 < |data| <= MAX_LENGTH && BytesAt(file, p, Good(|data|) + data + Good(|data|))
    ensures Restored(file, p, buffer) == [WriteBlock(|data|, data)] + Restored(file, p + 8 + |data|, data)
  {
    var g := Good(|data|);
    BytesSplit(file, p, g + data, g);
    BytesSplit(file, p, g, data);
    MetaThere(file, p, MetaData(GOOD_DATA, |data|));
    assert file[p + 4..p + 4 + |data|] == data;
    hide *;
    RestoreStep(file, p, buffer);
    BlockRequested(data);
  }

  lemma BlockRequested(data: seq<Byte>)
    requires |data| <= MAX_LENGTH
    ensures BlockRequest(data) == WriteBlock(|data|, data)
  {
  }

  // A block that does not fit into the field is written with what is left of its length.
  lemma LongBlockIsCut(data: seq<Byte>, k: nat)
    requires |data| == 0x100_0000 + k && k < 0x100_0000
    ensures BlockRequest(data) == WriteBlock(k, data)
  {
  }

  lemma ReplayedOne(o: Outcome)
    ensures Replayed([o]) == match o
                             case BlockRead(data) => [WriteBlock(|data|, data)]
                             case FilemarkRead => [WriteFilemark]
                             case _ => []
  {
    assert Replayed([o][1..]) == [];
  }

  lemma RestoreOne(file: seq<Byte>, p: nat, o: Outcome, buffer: seq<Byte>) returns (after: seq<Byte>)
    requires IsDumpable(o) && BytesAt(file, p, ImageOf(o))
    ensures Restored(file, p, buffer) == Replayed([o]) + Restored(file, p + |ImageOf(o)|, after)
  {
    hide *;
    ReplayedOne(o);
    MarkersAreMetaData();
    ImageOfShows(o);
    after := buffer;
    match o
    case BlockRead(data) =>
      RestoreBlock(file, p, data, buffer);
      after := data;
    case BadBlockRead => RestoreMarker(file, p, BAD_DATA, buffer);
    case FilemarkRead => RestoreMarker(file, p, GOOD_DATA, buffer);
  }

  lemma ImageOfShows(o: Outcome)
    requires IsDumpable(o)
    ensures o.BlockRead? || o.BadBlockRead? || o.FilemarkRead?
    ensures match o
            case BlockRead(data) =>
              0 < |data| <= MAX_LENGTH && ImageOf(o) == Good(|data|) + data + Good(|data|) && |ImageOf(o)| == 8 + |data|
            case BadBlockRead => ImageOf(o) == [0, 0, 0, 0x80]
            case FilemarkRead => ImageOf(o) == [0, 0, 0, 0]
            case _ => true
  {
    hide ToLittleEndian;
  }

  // Restoring what has been dumped replays the blocks, of even and odd length, and the filemarks in order, whatever is
  // in the buffer.
  lemma {:induction false} RestoreOfDump(file: seq<Byte>, p: nat, os: seq<Outcome>, buffer: seq<Byte>)
    requires (forall i :: 0 <= i < |os| ==> IsDumpable(os[i])) && BytesAt(file, p, Image(os))
    requires p + |Image(os)| == |file|
    ensures Restored(file, p, buffer) == Replayed(os)
    decreases |os|
  {
    hide *;
    NothingRestored(file, p, buffer);
    if os != [] {
      var o, rest := os[0], os[1..];
      FirstOutcome(os);
      BytesSplit(file, p, ImageOf(o), Image(rest));
      var after := RestoreOne(file, p, o, buffer);
      RestoreOfDump(file, p + |ImageOf(o)|, rest, after);
    }
  }

  lemma NothingRestored(file: seq<Byte>, p: nat, buffer: seq<Byte>)
    ensures p == |file| ==> Restored(file, p, buffer) == []
    ensures Replayed([]) == [] && Image([]) == []
  {
  }

  lemma FirstOutcome(os: seq<Outcome>)
    requires os != []
    ensures Image(os) == ImageOf(os[0]) + Image(os[1..]) && Replayed(os) == Replayed([os[0]]) + Replayed(os[1..])
  {
    assert [os[0]][1..] == [];
  }

  // One step of a restore
  lemma RestoreStep(file: seq<Byte>, p: nat, buffer: seq<Byte>)
    ensures ReadMetaData(file, p).Some?
    ensures var m := ReadMetaData(file, p).value;
            Restored(file, p, buffer) ==
            if m == MetaData(RESERVED_MARKER, END_OF_MEDIUM) then []
            else if m.cls == GOOD_DATA && m.value == 0 then [WriteFilemark] + Restored(file, p + 4, buffer)
            else if (m.cls == GOOD_DATA || m.cls == BAD_DATA) && m.value != 0 then
              var after := BufferAfter(file, p + 4, m.value, buffer);
              [BlockRequest(after)] + if p + 4 + m.value > |file| then [] else Restored(file, p + 8 + m.value, after)
            else Restored(file, p + 4, buffer)
    ensures p >= |file| ==> ReadMetaData(file, p).value == MetaData(RESERVED_MARKER, END_OF_MEDIUM)
  {
  }

  lemma AppendReplay(a: seq<Replay>, r: Replay, rest: seq<Replay>)
    ensures a + ([r] + rest) == a + [r] + rest
  {
  }

  // RestoreTape
  method RestoreTape(file: seq<Byte>, initial: seq<Byte>) returns (replay: seq<Replay>)
    ensures replay == Restored(file, 0, initial)
  {
    hide Restored;
    hide ReadMetaData;
    hide BlockRequest;
    var p: nat, buffer := 0, initial;
    replay := [];
    while true
      invariant replay + Restored(file, p, buffer) == Restored(file, 0, initial)
      decreases if p < |file| then |file| - p else 0
    {
      RestoreStep(file, p, buffer);
      var m := ReadMetaData(file, p).value;
      if m.cls == RESERVED_MARKER && m.value == END_OF_MEDIUM {
        return;
      }
      if m.cls == GOOD_DATA && m.value == 0 {
        // Tape mark
        AppendReplay(replay, WriteFilemark, Restored(file, p + 4, buffer));
        replay := replay + [WriteFilemark];
        p := p + 4;
      } else if (m.cls == GOOD_DATA || m.cls == BAD_DATA) && m.value != 0 {
        buffer := BufferAfter(file, p + 4, m.value, buffer);
        var block := BlockRequest(buffer);
        if p + 4 + m.value > |file| {
          // The end of the file has been reached, no more meta data can be read.
          replay := replay + [block];
          return;
        }
        AppendReplay(replay, block, Restored(file, p + 8 + m.value, buffer));
        replay := replay + [block];
        p := p + 8 + m.value;
      } else {
        p := p + 4;
      }
    }
  }

  function OutcomeOf(o: TapeObject): Outcome {
    match o
    case Block(_, data) => BlockRead(data)
    case BadBlock => BadBlockRead
    case Filemark => FilemarkRead
    case Gap => NotReadable
  }

  // What a dump can read: blocks of even length, as the tape device requires.
  predicate IsReadableObject(o: TapeObject) {
    !o.Gap? && (o.Block? ==> |o.data| <= MAX_LENGTH && |o.data| % 2 == 0)
  }

  predicate OnlyGaps(gaps: seq<TapeObject>) {
    forall g :: g in gaps ==> g.Gap?
  }

  // The end of the data: a mark, or the end of the file
  predicate DataEnd(file: seq<Byte>, p: int) {
    |file| < p + META_DATA_SIZE || (p >= 0 && MetaAt(file, p, END_OF_DATA))
  }

  // Where a READ that meets it leaves the tape.
  function EndPlace(file: seq<Byte>, p: int, l: int): Place {
    Place(if |file| < p + META_DATA_SIZE then p + META_DATA_SIZE else p, l)
  }

  // The next object of a tape, behind gaps, or the end of the data.
  predicate Ahead(file: seq<Byte>, p: int, gaps: seq<TapeObject>, next: Option<TapeObject>) {
    && 0 <= p && OnlyGaps(gaps)
    && match next
       case Some(o) => Holds(file, p, gaps + [o]) && IsReadableObject(o)
       case None => Holds(file, p, gaps) && DataEnd(file, End(p, gaps))
  }

  lemma ReadOfEnd(file: seq<Byte>, p: nat, l: int, gaps: seq<TapeObject>, info: int)
    requires Ahead(file, p, gaps, None)
    ensures var f := Find(file, Place(p, l), BLOCK, 0, false, Some(info));
            f.Stopped? && f.stop in {EndOfData(0), EndOfPartition(0)} && f.place == EndPlace(file, End(p, gaps), l)
  {
    hide Find;
    hide Holds;
    MarkIsEndOfData(file, End(p, gaps));
    ReadRunsOut(file, p, l, gaps, info);
  }

  lemma SpaceBackOver(file: seq<Byte>, q: nat, l: int, o: TapeObject)
    requires Holds(file, q, [o]) && (o.Block? || o.BadBlock?)
    ensures Find(file, Place(q + o.Size(), l + 1), BLOCK, 1, true, None) == Found(o.Head(), Place(q, l))
  {
    hide Find;
    hide ObjectAt;
    assert [o][1..] == [];
    assert CountKind([o], BLOCK) == 1 && CountedObjects([o]) == 1;
    assert End(q, [o]) == q + o.Size();
    FindBack(file, q, l + 1, [o], BLOCK, 1);
  }

  // One READ with the default length, at the next object.
  lemma ReadAhead(file: seq<Byte>, p: nat, l: int, gaps: seq<TapeObject>, next: Option<TapeObject>, count: nat)
    requires Ahead(file, p, gaps, next) && 0 < count
    ensures var f := Find(file, Place(p, l), BLOCK, 0, false, Some(count));
            match next
            case None =>
              && !IsReadable(f) && StopOf(f) in {EndOfData(0), EndOfPartition(0)}
              && f.place == EndPlace(file, End(p, gaps), l)
            case Some(o) =>
              var behind := Place(End(p, gaps) + o.Size(), l + 1);
              if o.Block? then
                ReadVariable(file, Place(p, l), count, false, count) ==
                Data(if |o.data| <= count then o.data else o.data[..count],
                     if |o.data| != count then Some(count - |o.data|) else None, behind)
              else
                && !IsReadable(f) && StopOf(f) == (if o.BadBlock? then MediumError else FilemarkFound(count))
                && f.place == behind
    ensures next.None? || !next.value.Block? ==>
              var f := Find(file, Place(p, l), BLOCK, 0, false, Some(count));
              !IsReadable(f) && ReadVariable(file, Place(p, l), count, false, count) == NotRead(StopOf(f))
  {
    hide Find;
    hide ReadVariable;
    hide ObjectAt;
    match next
    case None =>
      ReadOfEnd(file, p, l, gaps, count);
      NotFoundReads(file, Place(p, l), count, false, count);
    case Some(o) =>
      if o.Block? {
        ReadOfBlock(file, p, l, gaps, o, count, false, count);
        assert o.data[..|o.data|] == o.data;
      } else {
        ReadOfOther(file, p, l, gaps, o, count);
        NotFoundReads(file, Place(p, l), count, false, count);
      }
  }

  lemma AheadShows(file: seq<Byte>, p: int, gaps: seq<TapeObject>, next: Option<TapeObject>)
    requires Ahead(file, p, gaps, next)
    ensures 0 <= p <= End(p, gaps)
    ensures next.Some? ==> !next.value.Gap? && Holds(file, End(p, gaps), [next.value])
    ensures next.Some? && next.value.Block? ==> 0 < |next.value.data| <= MAX_LENGTH
  {
    if next.Some? {
      HoldsSplit(file, p, gaps, [next.value]);
      ObjectIsValid(file, End(p, gaps), next.value);
    }
  }

  lemma AheadAgain(file: seq<Byte>, p: int, gaps: seq<TapeObject>, next: Option<TapeObject>)
    requires Ahead(file, p, gaps, next) && next.Some?
    ensures Ahead(file, End(p, gaps), [], next) && End(End(p, gaps), []) == End(p, gaps)
  {
    HoldsSplit(file, p, gaps, [next.value]);
    assert [] + [next.value] == [next.value];
  }

  // The tape side of a dump
  class Executor {
    const tape: Tape
    var defaultLength: nat
    ghost var spaces: nat      // the number of SPACE commands issued

    constructor (t: Tape)
      ensures tape == t && defaultLength == MAX_LENGTH && spaces == 0
    {
      tape, defaultLength, spaces := t, MAX_LENGTH, 0;
    }

    method SpaceBack()
      modifies tape, this`spaces
      ensures spaces == old(spaces) + 1 && tape.file == old(tape.file)
      ensures tape.Here() == Find(tape.file, old(tape.Here()), BLOCK, 1, true, None).place
    {
      var e := tape.Space(BLOCK, -1);
      spaces := spaces + 1;
    }

    // What a READ with the default length has found, or None if it is to be repeated.
    method Evaluate(r: Result, hasError: bool) returns (o: Option<Outcome>)
      requires 0 < defaultLength <= MAX_LENGTH
      requires r.Bytes? && tape.ili.Some? ==> 0 < defaultLength - tape.ili.value <= MAX_LENGTH
      modifies tape, this`spaces, this`defaultLength
      ensures tape.file == old(tape.file) && 0 < defaultLength <= MAX_LENGTH
      ensures r.Failed? || old(tape.ili).None? ==> defaultLength == old(defaultLength)
      ensures r.Bytes? ==>
                match old(tape.ili)
                case None => o == Some(BlockRead(r.bytes)) && spaces == old(spaces) && tape.Here() == old(tape.Here())
                case Some(info) =>
                  && defaultLength == old(defaultLength) - info
                  && if info > 0 then
                       && o == Some(BlockRead(r.bytes[..Min(defaultLength, |r.bytes|)]))
                       && spaces == old(spaces) && tape.Here() == old(tape.Here())
                     else o.None? && spaces == old(spaces) + 1
                          && tape.Here() == Find(tape.file, old(tape.Here()), BLOCK, 1, true, None).place
      ensures r.Failed? && (r.stop.EndOfData? || r.stop.EndOfPartition? || r.stop.BeginningOfPartition?) ==>
                o == Some(NoMoreData) && spaces == old(spaces) && tape.Here() == old(tape.Here())
      ensures r.Failed? && r.stop.FilemarkFound? ==>
                o == Some(FilemarkRead) && spaces == old(spaces) && tape.Here() == old(tape.Here())
      ensures r.Failed? && r.stop.MediumError? ==>
                if hasError then o == Some(BadBlockRead) && spaces == old(spaces) && tape.Here() == old(tape.Here())
                else o.None? && spaces == old(spaces) + 1
                     && tape.Here() == Find(tape.file, old(tape.Here()), BLOCK, 1, true, None).place
      ensures r.Failed? && r.stop.InvalidField? ==> o == Some(NotReadable) && spaces == old(spaces)
    {
      match r
      case Bytes(bytes) =>
        if tape.ili.None? {
          return Some(BlockRead(bytes));
        }
        var length := defaultLength;
        defaultLength := defaultLength - tape.ili.value;
        // If all available data have been read there is no need to re-try
        if defaultLength < length {
          return Some(BlockRead(bytes[..Min(defaultLength, |bytes|)]));
        }
        SpaceBack();
        return None;
      case Failed(stop) =>
        if stop.EndOfData? || stop.EndOfPartition? || stop.BeginningOfPartition? {
          return Some(NoMoreData);
        } else if stop.MediumError? {
          if hasError {
            return Some(BadBlockRead);
          }
          SpaceBack();
          return None;
        } else if stop.FilemarkFound? {
          return Some(FilemarkRead);
        }
        return Some(NotReadable);
    }

    // One READ, and what follows from it
    method ReadOnce(hasError: bool, ghost gaps: seq<TapeObject>, ghost next: Option<TapeObject>)
      returns (o: Option<Outcome>, failed: bool)
      requires 0 < defaultLength <= MAX_LENGTH && 0 < tape.blockSize && Ahead(tape.file, tape.tapePosition, gaps, next)
      modifies tape, this`spaces, this`defaultLength
      ensures tape.file == old(tape.file) && 0 < defaultLength <= MAX_LENGTH
      ensures next.None? ==>
                && o == Some(NoMoreData) && spaces == old(spaces)
                && tape.Here() == EndPlace(tape.file, End(old(tape.tapePosition), gaps), old(tape.objectLocation))
      ensures next.Some? ==>
                var q, l := End(old(tape.tapePosition), gaps), old(tape.objectLocation);
                var again := if next.value.Block? then |next.value.data| > old(defaultLength)
                  else next.value.BadBlock? && !hasError;
                && (next.value.Block? ==> defaultLength == |next.value.data|) && (failed <==> next.value.BadBlock?)
                && if again then o.None? && spaces == old(spaces) + 1 && tape.Here() == Place(q, l)
                   else o == Some(OutcomeOf(next.value)) && spaces == old(spaces)
                        && tape.Here() == Place(q + next.value.Size(), l + 1)
    {
      hide Find;
      hide ReadVariable;
      hide Ahead;
      hide Holds;
      ghost var p, l, count := tape.tapePosition, tape.objectLocation, defaultLength;
      AheadShows(tape.file, p, gaps, next);
      ReadAhead(tape.file, p, l, gaps, next, count);
      if next.Some? && !next.value.Filemark? {
        SpaceBackOver(tape.file, End(p, gaps), l, next.value);
      }
      var r := tape.Read(defaultLength, false, false);
      failed := r.Failed? && r.stop.MediumError?;
      assert next.Some? && next.value.Block? ==> next.value.data[..|next.value.data|] == next.value.data;
      o := Evaluate(r, hasError);
    }

    // ReadWrite for a dump: the next object, with at most one SPACE command.
    method ReadRecord(ghost gaps: seq<TapeObject>, ghost next: Option<TapeObject>) returns (o: Outcome)
      requires 0 < defaultLength <= MAX_LENGTH && 0 < tape.blockSize && Ahead(tape.file, tape.tapePosition, gaps, next)
      modifies tape, this`spaces, this`defaultLength
      ensures tape.file == old(tape.file) && 0 < defaultLength <= MAX_LENGTH && spaces <= old(spaces) + 1
      ensures match next
              case None =>
                && o == NoMoreData && spaces == old(spaces)
                && tape.Here() == EndPlace(tape.file, End(old(tape.tapePosition), gaps), old(tape.objectLocation))
              case Some(x) =>
                && o == OutcomeOf(x)
                && tape.Here() == Place(End(old(tape.tapePosition), gaps) + x.Size(), old(tape.objectLocation) + 1)
    {
      hide Ahead;
      var hasError := false;
      ghost var q, l, g := End(tape.tapePosition, gaps), tape.objectLocation, gaps;
      while true
        invariant tape.file == old(tape.file) && 0 < defaultLength <= MAX_LENGTH
        invariant Ahead(tape.file, tape.tapePosition, g, next)
        invariant End(tape.tapePosition, g) == q && tape.objectLocation == l
        invariant if hasError || spaces != old(spaces) then
                    && spaces == old(spaces) + 1 && next.Some?
                    && (next.value.Block? ==> defaultLength == |next.value.data|) && (next.value.BadBlock? ==> hasError)
                    && !next.value.Filemark?
                  else spaces == old(spaces)
        decreases old(spaces) + 1 - spaces
      {
        AheadShows(tape.file, tape.tapePosition, g, next);
        ghost var p := tape.tapePosition;
        var r, failed := ReadOnce(hasError, g, next);
        if r.Some? {
          return r.value;
        }
        hasError := hasError || failed;
        AheadAgain(tape.file, p, g, next);
        g := [];
      }
    }
  }

  // What a dump of some objects finds: everything but the gaps.
  function OutcomesOf(objs: seq<TapeObject>): seq<Outcome> {
    if objs == [] then []
    else (if objs[0].Gap? then [] else [OutcomeOf(objs[0])]) + OutcomesOf(objs[1..])
  }

  function LeadingGaps(objs: seq<TapeObject>): (n: nat)
    ensures n <= |objs|
  {
    if objs == [] || !objs[0].Gap? then 0 else 1 + LeadingGaps(objs[1..])
  }

  function Next(objs: seq<TapeObject>): Option<TapeObject> {
    var n := LeadingGaps(objs);
    if n < |objs| then Some(objs[n]) else None
  }

  function Behind(objs: seq<TapeObject>): seq<TapeObject> {
    var n := LeadingGaps(objs);
    if n < |objs| then objs[n + 1..] else []
  }

  // A tape that a dump can read to the end of its data.
  predicate Dumpable(file: seq<Byte>, p: int, objs: seq<TapeObject>) {
    && 0 <= p && Holds(file, p, objs) && DataEnd(file, End(p, objs))
    && forall o :: o in objs ==> o.Gap? || IsReadableObject(o)
  }

  lemma {:induction false} SplitAtNext(objs: seq<TapeObject>)
    ensures var n := LeadingGaps(objs);
            && OnlyGaps(objs[..n])
            && (match Next(objs)
                case None => objs == objs[..n] && OutcomesOf(objs) == []
                case Some(o) => objs == objs[..n] + [o] + Behind(objs) && !o.Gap? && o in objs
                                && OutcomesOf(objs) == [OutcomeOf(o)] + OutcomesOf(Behind(objs)))
    decreases |objs|
  {
    hide *;
    if objs != [] && objs[0].Gap? {
      var n, rest := LeadingGaps(objs), objs[1..];
      GapInFront(objs);
      SplitAtNext(rest);
      GapsGrow(objs[0], rest[..n - 1]);
      assert objs == [objs[0]] + rest;
      assert objs[..n] == [objs[0]] + rest[..n - 1];
    } else {
      NoGapInFront(objs);
    }
  }

  lemma GapInFront(objs: seq<TapeObject>)
    requires objs != [] && objs[0].Gap?
    ensures var n, rest := LeadingGaps(objs), objs[1..];
            && 0 < n <= |objs| && LeadingGaps(rest) == n - 1 && Next(objs) == Next(rest) && Behind(objs) == Behind(rest)
            && OutcomesOf(objs) == OutcomesOf(rest)
  {
    hide OutcomeOf;
    assert [] + OutcomesOf(objs[1..]) == OutcomesOf(objs[1..]);
    assert forall k: nat :: k <= |objs| - 1 ==> objs[1..][k..] == objs[k + 1..];
  }

  lemma GapsGrow(g: TapeObject, gaps: seq<TapeObject>)
    requires g.Gap? && OnlyGaps(gaps)
    ensures OnlyGaps([g] + gaps)
  {
  }

  lemma NoGapInFront(objs: seq<TapeObject>)
    requires objs != [] ==> !objs[0].Gap?
    ensures OnlyGaps(objs[..LeadingGaps(objs)]) && LeadingGaps(objs) == 0
    ensures match Next(objs)
            case None => objs == [] && OutcomesOf(objs) == []
            case Some(o) => objs == [] + [o] + Behind(objs) && !o.Gap? && o in objs
                            && OutcomesOf(objs) == [OutcomeOf(o)] + OutcomesOf(Behind(objs))
  {
    hide OutcomeOf;
    if objs != [] {
      assert objs == [] + [objs[0]] + objs[1..];
    }
  }

  lemma NextIsAhead(file: seq<Byte>, p: int, objs: seq<TapeObject>)
    requires Dumpable(file, p, objs)
    ensures var n, next := LeadingGaps(objs), Next(objs);
            && Ahead(file, p, objs[..n], next)
            && (next.Some? ==> Dumpable(file, End(p, objs[..n]) + next.value.Size(), Behind(objs))
                               && |Behind(objs)| < |objs|)
  {
    hide ObjectAt;
    hide DataEnd;
    var n, next := LeadingGaps(objs), Next(objs);
    SplitAtNext(objs);
    if next.Some? {
      var o, behind := next.value, Behind(objs);
      assert forall x :: x in behind ==> x in objs;
      HoldsSplit(file, p, objs[..n] + [o], behind);
      HoldsSplit(file, p, objs[..n], [o]);
      assert End(End(p, objs[..n]), [o]) == End(p, objs[..n]) + o.Size();
    }
  }

  // One round of the dump: the objects behind the one that it has read, and its outcome.
  method DumpNext(e: Executor, ghost objs: seq<TapeObject>) returns (o: Outcome, ghost rest: seq<TapeObject>)
    requires 0 < e.defaultLength <= MAX_LENGTH && 0 < e.tape.blockSize
    requires Dumpable(e.tape.file, e.tape.tapePosition, objs)
    modifies e, e.tape
    ensures 0 < e.defaultLength <= MAX_LENGTH && e.tape.file == old(e.tape.file)
    ensures if o.NoMoreData? then OutcomesOf(objs) == [] && e.spaces == old(e.spaces)
            else OutcomesOf(objs) == [o] + OutcomesOf(rest) && e.spaces <= old(e.spaces) + 1 && |rest| < |objs|
                 && Dumpable(e.tape.file, e.tape.tapePosition, rest)
  {
    hide *;
    ghost var gaps, next := objs[..LeadingGaps(objs)], Next(objs);
    NextIsAhead(e.tape.file, e.tape.tapePosition, objs);
    SplitAtNext(objs);
    OutcomeIsReal(next);
    o := e.ReadRecord(gaps, next);
    rest := Behind(objs);
    HereIsPosition(e.tape);
  }

  lemma OutcomeIsReal(next: Option<TapeObject>)
    ensures next.Some? ==> !OutcomeOf(next.value).NoMoreData?
  {
  }

  lemma HereIsPosition(t: Tape)
    ensures t.Here() == Place(t.tapePosition, t.objectLocation)
  {
  }

  // DumpTape: the image holds the blocks, bad blocks and filemarks of the tape in order, and there is at most one
  // SPACE command for each of them.
  method DumpTape(e: Executor, ghost objs: seq<TapeObject>) returns (image: seq<Byte>)
    requires 0 < e.defaultLength <= MAX_LENGTH && 0 < e.tape.blockSize
    requires Dumpable(e.tape.file, e.tape.tapePosition, objs)
    modifies e, e.tape
    ensures image == Image(OutcomesOf(objs)) && e.tape.file == old(e.tape.file)
    ensures e.spaces <= old(e.spaces) + |OutcomesOf(objs)|
  {
    hide Dumpable;
    hide OutcomesOf;
    image := [];
    ghost var rest := objs;
    while true
      invariant 0 < e.defaultLength <= MAX_LENGTH && e.tape.file == old(e.tape.file)
      invariant Dumpable(e.tape.file, e.tape.tapePosition, rest)
      invariant image + Image(OutcomesOf(rest)) == Image(OutcomesOf(objs))
      invariant e.spaces + |OutcomesOf(rest)| <= old(e.spaces) + |OutcomesOf(objs)|
      decreases |rest|
    {
      ghost var os := OutcomesOf(rest);
      var o;
      o, rest := DumpNext(e, rest);
      if o.NoMoreData? {
        break;
      }
      ImageGrows(image, os, o, OutcomesOf(rest));
      image := image + ImageOf(o);
    }
  }

  lemma ImageGrows(image: seq<Byte>, os: seq<Outcome>, o: Outcome, rest: seq<Outcome>)
    ensures os == [o] + rest ==> image + Image(os) == image + ImageOf(o) + Image(rest)
  {
    if os == [o] + rest {
      assert os[1..] == rest;
    }
  }

  // Restoring the dump of a tape replays its blocks and filemarks in order.
  lemma DumpRestores(objs: seq<TapeObject>, buffer: seq<Byte>)
    requires forall o :: o in objs ==> o.Valid() && (o.Gap? || IsReadableObject(o))
    ensures Restored(Image(OutcomesOf(objs)), 0, buffer) == Replayed(OutcomesOf(objs))
  {
    OutcomesAreDumpable(objs);
    RestoreOfDump(Image(OutcomesOf(objs)), 0, OutcomesOf(objs), buffer);
  }

  lemma {:induction false} OutcomesAreDumpable(objs: seq<TapeObject>)
    requires forall o :: o in objs ==> o.Valid() && (o.Gap? || IsReadableObject(o))
    ensures forall x :: x in OutcomesOf(objs) ==> IsDumpable(x)
  {
    if objs != [] {
      assert objs[0] in objs;
      OutcomesAreDumpable(objs[1..]);
    }
  }

  // ---- A dump is a tape ----

  // The objects a dump has of some objects: no gaps, and nothing marked as damaged.
  function Kept(o: TapeObject): seq<TapeObject> {
    match o
    case Block(_, data) => [Block(false, data)]
    case Gap => []
    case _ => [o]
  }

  function KeptOf(objs: seq<TapeObject>): seq<TapeObject> {
    if objs == [] then [] else Kept(objs[0]) + KeptOf(objs[1..])
  }

  lemma HoldsOne(file: seq<Byte>, p: nat, o: TapeObject)
    ensures Holds(file, p, [o]) <==> ObjectAt(file, p, o)
    ensures End(p, [o]) == p + o.Size()
  {
    hide ObjectAt;
    assert [o][1..] == [];
  }

  lemma EvenRecord(p: nat, data: seq<Byte>)
    requires p % 2 == 0 && |data| % 2 == 0 && |data| < VALUE_LIMIT
    ensures Record(p, data) == Good(|data|) + data + Good(|data|)
  {
    var g := Good(|data|);
    assert Padding(p, |data|) == [] && g + data + [] == g + data;
  }

  lemma MarkerIsObject(file: seq<Byte>, p: nat, o: TapeObject)
    requires (o.BadBlock? && BytesAt(file, p, [0, 0, 0, 0x80])) || (o.Filemark? && BytesAt(file, p, [0, 0, 0, 0]))
    ensures ObjectAt(file, p, o)
  {
    hide ToLittleEndian;
    MarkersAreMetaData();
    MarkerThere(file, p, o, ToLittleEndian(o.Head()));
  }

  lemma MarkerThere(file: seq<Byte>, p: nat, o: TapeObject, b: seq<Byte>)
    requires !o.Block? && b == ToLittleEndian(o.Head()) && BytesAt(file, p, b)
    ensures ObjectAt(file, p, o)
  {
    hide ToLittleEndian;
  }

  lemma ImageIsObject(file: seq<Byte>, p: nat, o: TapeObject)
    requires IsReadableObject(o) && o.Valid() && p % 2 == 0 && BytesAt(file, p, ImageOf(OutcomeOf(o)))
    ensures Holds(file, p, Kept(o)) && End(p, Kept(o)) == p + |ImageOf(OutcomeOf(o))|
    ensures |ImageOf(OutcomeOf(o))| % 2 == 0
  {
    hide BytesAt;
    hide ObjectAt;
    hide Holds;
    hide Record;
    hide Good;
    hide End;
    HoldsOne(file, p, Kept(o)[0]);
    if o.Block? {
      EvenRecord(p, o.data);
      RecordIsObject(file, p, o.data);
    } else {
      MarkerIsObject(file, p, o);
    }
  }

  // The dump of a row of objects holds these objects, one directly behind the other.
  lemma {:induction false} DumpHoldsObjects(file: seq<Byte>, p: nat, objs: seq<TapeObject>)
    requires p % 2 == 0 && BytesAt(file, p, Image(OutcomesOf(objs)))
    requires forall o :: o in objs ==> o.Gap? || (IsReadableObject(o) && o.Valid())
    ensures Holds(file, p, KeptOf(objs)) && End(p, KeptOf(objs)) == p + |Image(OutcomesOf(objs))|
    decreases |objs|
  {
    hide *;
    NothingKept(file, p);
    if objs != [] {
      var o, rest := objs[0], objs[1..];
      assert o in objs && forall x :: x in rest ==> x in objs;
      FirstKept(objs);
      if o.Gap? {
        DumpHoldsObjects(file, p, rest);
      } else {
        var i := ImageOf(OutcomeOf(o));
        BytesSplit(file, p, i, Image(OutcomesOf(rest)));
        ImageIsObject(file, p, o);
        DumpHoldsObjects(file, p + |i|, rest);
        HoldsSplit(file, p, Kept(o), KeptOf(rest));
      }
    }
  }

  lemma NothingKept(file: seq<Byte>, p: nat)
    ensures KeptOf([]) == [] && Image(OutcomesOf([])) == [] && Holds(file, p, []) && End(p, []) == p
  {
  }

  lemma FirstKept(objs: seq<TapeObject>)
    requires objs != []
    ensures var o, rest := objs[0], objs[1..];
            if o.Gap? then KeptOf(objs) == KeptOf(rest) && OutcomesOf(objs) == OutcomesOf(rest)
            else KeptOf(objs) == Kept(o) + KeptOf(rest)
                 && Image(OutcomesOf(objs)) == ImageOf(OutcomeOf(o)) + Image(OutcomesOf(rest))
  {
    hide ImageOf;
    var o, rest := objs[0], objs[1..];
    if o.Gap? {
      assert [] + KeptOf(rest) == KeptOf(rest) && [] + OutcomesOf(rest) == OutcomesOf(rest);
    } else {
      assert OutcomesOf(objs)[1..] == OutcomesOf(rest);
    }
  }

  lemma {:induction false} SameOutcomes(objs: seq<TapeObject>)
    ensures OutcomesOf(KeptOf(objs)) == OutcomesOf(objs)
    ensures forall o :: o in KeptOf(objs) ==> exists x :: x in objs && Kept(x) == [o]
    decreases |objs|
  {
    if objs != [] {
      var o, rest := objs[0], objs[1..];
      SameOutcomes(rest);
      if o.Gap? {
        assert KeptOf(objs) == KeptOf(rest);
      } else {
        assert KeptOf(objs)[1..] == KeptOf(rest) && KeptOf(objs)[0] == Kept(o)[0];
        assert Kept(o) == [Kept(o)[0]];
      }
      assert objs == [o] + rest;
    }
  }

  // The dump of a tape can be used as a tape, and dumped again: it gives the same dump.
  lemma DumpIsTape(file: seq<Byte>, objs: seq<TapeObject>)
    requires file == Image(OutcomesOf(objs))
    requires forall o :: o in objs ==> o.Gap? || (IsReadableObject(o) && o.Valid())
    ensures Dumpable(file, 0, KeptOf(objs)) && Image(OutcomesOf(KeptOf(objs))) == file
  {
    hide OutcomeOf;
    hide ImageOf;
    assert file[..|file|] == file;
    DumpHoldsObjects(file, 0, objs);
    SameOutcomes(objs);
    forall o | o in KeptOf(objs)
      ensures o.Gap? || IsReadableObject(o)
    {
      var x :| x in objs && Kept(x) == [o];
    }
  }
}
