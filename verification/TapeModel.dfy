// Tape images as sequences of objects, and the positions that searching forward and backward reaches.
module TapeModel {
  import opened Basics
  import opened Simh

  const BLOCK: nat := 0
  const FILEMARK: nat := 1

  // Why a tape command ends before it has done what it was asked for.
  datatype Stop =
    | MediumError
    | BeginningOfPartition(info: int)
    | EndOfPartition(info: int)
    | EndOfData(info: int)
    | FilemarkFound(info: int)
    | InvalidField

  // The position on the tape and the number of the object there.
  datatype Place = Place(position: int, location: int)

  datatype Step = Read(meta: MetaData, position: int) | Unreadable | BeforeStart

  datatype Lookup = Object(kind: nat, length: nat, meta: MetaData, place: Place) | NoObject(stop: Stop, place: Place)

  datatype Search = Found(meta: MetaData, place: Place) | Stopped(stop: Stop, place: Place)

  // The bytes that belong to meta data besides the meta data themselves.
  function Body(m: MetaData): nat {
    if IsRecord(m) then Pad(m.value) + META_DATA_SIZE else 0
  }

  function NextMetaData(file: seq<Byte>, position: int, reverse: bool): (s: Step)
    ensures s.Read? && reverse ==> s.position <= position - META_DATA_SIZE && position >= META_DATA_SIZE
    ensures s.Read? && !reverse ==> s.position == position + META_DATA_SIZE && position >= 0
    ensures s.Read? && !reverse && s.position > |file| ==> s.meta == MetaData(RESERVED_MARKER, END_OF_MEDIUM)
  {
    if reverse then
      var p := position - META_DATA_SIZE;
      if p < 0 then BeforeStart
      else
        var m := ReadMetaData(file, p).value;
        Read(m, p - Body(m))
    else
      match ReadMetaData(file, position)
      case None => Unreadable
      case Some(m) => Read(m, position + META_DATA_SIZE)
  }

  // Whether meta data count for the object location.
  predicate IsCounted(m: MetaData) {
    IsRecord(m) || ((m.cls == BAD_DATA || m.cls == GOOD_DATA) && m.value == 0)
  }

  function Counted(location: int, m: MetaData, reverse: bool): int {
    if !IsCounted(m) then location else if reverse then location - 1 else location + 1
  }

  // What meta data stand for, once the position is behind them, or None if they are skipped: gaps, unknown markers,
  // and private, reserved and description records.
  function Classify(m: MetaData, next: Place, count: int): Option<Lookup> {
    if m.cls == GOOD_DATA then Some(Object(if m.value == 0 then FILEMARK else BLOCK, m.value, m, next))
    else if m.cls == BAD_DATA then Some(Object(BLOCK, m.value, m, next))
    else if m == MetaData(RESERVED_MARKER, END_OF_MEDIUM) then Some(NoObject(EndOfPartition(count), next))
    else if m.cls == PRIVATE_MARKER && m.value % 0x100_0000 == PRIVATE_MARKER_MAGIC then
      Some(Object(m.value / 0x100_0000 % 16, 0, m, next))
    else None
  }

  // How far a search can still go.
  function Room(file: seq<Byte>, position: int, reverse: bool): nat {
    if reverse then (if position > 0 then position else 0)
    else if position < |file| then |file| - position else 0
  }

  // The next object
  function NextObject(file: seq<Byte>, at: Place, count: int, reverse: bool): (r: Lookup)
    ensures r.Object? ==> Room(file, r.place.position, reverse) < Room(file, at.position, reverse)
    decreases Room(file, at.position, reverse)
  {
    match NextMetaData(file, at.position, reverse)
    case BeforeStart => NoObject(BeginningOfPartition(count), Place(0, 0))
    case Unreadable => NoObject(MediumError, at)
    case Read(m, p) =>
      var next := Place(p, Counted(at.location, m, reverse));
      match Classify(m, next, count)
      case Some(r) => r
      case None => NextObject(file, if reverse then next else next.(position := p + Body(m)), count, reverse)
  }

  // What finding an object means for a search: its result, or None if the search goes on behind the object with one
  // object of the kind less, if it is one.
  function Judge(o: Lookup, kind: nat, count: int, reverse: bool, read: Option<int>): Option<Search>
    requires o.Object?
  {
    var next := if reverse then o.place else o.place.(position := o.place.position + Body(o.meta));
    if read.Some? && o.kind == BLOCK && o.length == 0 then Some(Found(o.meta, o.place))
    else if o.kind == END_OF_DATA_TYPE then
      Some(if kind == END_OF_DATA_TYPE then Found(o.meta, next)
           else Stopped(EndOfData(count), next.(position := next.position - META_DATA_SIZE)))
    else if o.kind == FILEMARK && kind == BLOCK then
      Some(Stopped(FilemarkFound(if read.Some? then read.value else if reverse then -count else count), next))
    else if kind != END_OF_DATA_TYPE && o.kind == kind && count - 1 <= 0 then Some(Found(o.meta, next))
    else None
  }

  // Search for the count-th object of a kind, or for the end of data. The information for a filemark depends on
  // the command.
  function Find(file: seq<Byte>, at: Place, kind: nat, count: int, reverse: bool, read: Option<int>): Search
    decreases Room(file, at.position, reverse)
  {
    var o := NextObject(file, at, count, reverse);
    match o
    case NoObject(stop, place) => Stopped(stop, place)
    case Object(k, length, m, place) =>
      match Judge(o, kind, count, reverse, read)
      case Some(r) => r
      case None =>
        Find(file, if reverse then place else place.(position := place.position + Body(m)), kind,
             if kind != END_OF_DATA_TYPE && k == kind then count - 1 else count, reverse, read)
  }

  // What a tape that was written by a drive or a dump consists of.
  datatype TapeObject =
    | Block(damaged: bool, data: seq<Byte>)
    | BadBlock
    | Filemark
    | Gap
  {
    predicate Valid() {
      Block? ==> 0 < |data| < VALUE_LIMIT
    }

    // The meta data in front of the object, and behind it if it is a block.
    function Head(): (m: MetaData)
      ensures Valid() ==> m.Valid() && (IsRecord(m) <==> Block?)
    {
      match this
      case Block(damaged, data) => MetaData(if damaged then BAD_DATA else GOOD_DATA, |data|)
      case BadBlock => MetaData(BAD_DATA, 0)
      case Filemark => MetaData(GOOD_DATA, 0)
      case Gap => MetaData(RESERVED_MARKER, ERASE_GAP)
    }

    function Size(): (n: nat)
      ensures n > 0 && (Valid() ==> n == META_DATA_SIZE + Body(Head()) && n % 2 == 0)
    {
      if Block? then Pad(|data|) + 2 * META_DATA_SIZE else META_DATA_SIZE
    }

    predicate IsKind(kind: nat) {
      (kind == BLOCK && (Block? || BadBlock?)) || (kind == FILEMARK && Filemark?)
    }
  }

  predicate MetaAt(file: seq<Byte>, p: nat, m: MetaData)
    requires m.Valid()
  {
    p + META_DATA_SIZE <= |file| && file[p..p + META_DATA_SIZE] == ToLittleEndian(m)
  }

  predicate ObjectAt(file: seq<Byte>, p: nat, o: TapeObject) {
    && o.Valid() && MetaAt(file, p, o.Head())
    && (o.Block? ==>
          && MetaAt(file, p + o.Size() - META_DATA_SIZE, o.Head())
          && file[p + META_DATA_SIZE..p + META_DATA_SIZE + |o.data|] == o.data)
  }

  // Where a row of objects ends.
  function End(p: int, objs: seq<TapeObject>): (e: int)
    ensures e >= p
    decreases |objs|
  {
    if objs == [] then p else End(p + objs[0].Size(), objs[1..])
  }

  predicate Holds(file: seq<Byte>, p: nat, objs: seq<TapeObject>)
    decreases |objs|
  {
    objs == [] || (ObjectAt(file, p, objs[0]) && Holds(file, p + objs[0].Size(), objs[1..]))
  }

  // The number of objects that the object location counts.
  function CountedObjects(objs: seq<TapeObject>): nat {
    if objs == [] then 0 else (if objs[0].Gap? then 0 else 1) + CountedObjects(objs[1..])
  }

  function CountKind(objs: seq<TapeObject>, kind: nat): nat {
    if objs == [] then 0 else (if objs[0].IsKind(kind) then 1 else 0) + CountKind(objs[1..], kind)
  }

  lemma {:induction false} HoldsSplit(file: seq<Byte>, p: nat, a: seq<TapeObject>, b: seq<TapeObject>)
    ensures End(p, a + b) == End(End(p, a), b)
    ensures Holds(file, p, a + b) <==> Holds(file, p, a) && Holds(file, End(p, a), b)
    ensures CountedObjects(a + b) == CountedObjects(a) + CountedObjects(b)
    decreases |a|
  {
    if a == [] {
      assert a + b == b;
    } else {
      assert (a + b)[1..] == a[1..] + b && (a + b)[0] == a[0];
      HoldsSplit(file, p + a[0].Size(), a[1..], b);
    }
  }

  lemma {:induction false} CountKindSplit(a: seq<TapeObject>, b: seq<TapeObject>, kind: nat)
    ensures CountKind(a + b, kind) == CountKind(a, kind) + CountKind(b, kind)
    decreases |a|
  {
    if a == [] {
      assert a + b == b;
    } else {
      assert (a + b)[1..] == a[1..] + b;
      CountKindSplit(a[1..], b, kind);
    }
  }

  lemma CountKindOne(o: TapeObject, kind: nat)
    ensures CountKind([o], kind) == if o.IsKind(kind) then 1 else 0
  {
    assert [o][1..] == [];
  }

  // One object forward and back.
  lemma ForwardOverObject(file: seq<Byte>, p: nat, o: TapeObject)
    requires ObjectAt(file, p, o)
    ensures NextMetaData(file, p, false) == Read(o.Head(), p + META_DATA_SIZE)
    ensures p + o.Size() == p + META_DATA_SIZE + Body(o.Head())
  {
    DecodeEncode(o.Head());
  }

  lemma BackOverObject(file: seq<Byte>, p: nat, o: TapeObject)
    requires ObjectAt(file, p, o)
    ensures NextMetaData(file, p + o.Size(), true) == Read(o.Head(), p)
  {
    DecodeEncode(o.Head());
  }

  function KindOf(o: TapeObject): nat {
    if o.Filemark? then FILEMARK else BLOCK
  }

  // Reading the next object finds it, or what follows if it is a gap.
  lemma NextObjectForward(file: seq<Byte>, p: nat, l: int, o: TapeObject, count: int)
    requires ObjectAt(file, p, o)
    ensures NextObject(file, Place(p, l), count, false) ==
            if o.Gap? then NextObject(file, Place(p + o.Size(), l), count, false)
            else Object(KindOf(o), o.Head().value, o.Head(), Place(p + META_DATA_SIZE, l + 1))
  {
    ForwardOverObject(file, p, o);
  }

  lemma NextObjectBack(file: seq<Byte>, p: nat, l: int, o: TapeObject, count: int)
    requires ObjectAt(file, p, o)
    ensures NextObject(file, Place(p + o.Size(), l), count, true) ==
            if o.Gap? then NextObject(file, Place(p, l), count, true)
            else Object(KindOf(o), o.Head().value, o.Head(), Place(p, l - 1))
  {
    BackOverObject(file, p, o);
  }

  // A stretch of tape in which a search for n objects of a kind is not stopped early.
  predicate Spaceable(objs: seq<TapeObject>, kind: nat, n: nat) {
    && (kind == BLOCK || kind == FILEMARK) && 0 < n == CountKind(objs, kind)
    && (kind == BLOCK ==> Filemark !in objs)
  }

  lemma {:induction false} NoneOfKind(objs: seq<TapeObject>, kind: nat)
    requires CountKind(objs, kind) == 0
    ensures forall i :: 0 <= i < |objs| ==> !objs[i].IsKind(kind)
  {
    if objs != [] {
      NoneOfKind(objs[1..], kind);
      assert forall i :: 0 < i < |objs| ==> objs[i] == objs[1..][i - 1];
    }
  }

  // One step of a search: the place behind the object, or in front of it, and the number still to be found.
  predicate IsNext(o: TapeObject, l: int, kind: nat, n: nat, reverse: bool, l1: int, n1: nat) {
    && (kind == BLOCK || kind == FILEMARK) && 0 < n && (kind == BLOCK ==> !o.Filemark?)
    && l1 == (if o.Gap? then l else if reverse then l - 1 else l + 1)
    && n1 == if o.IsKind(kind) then n - 1 else n
  }

  lemma FindOverObject(file: seq<Byte>, p: nat, l: int, o: TapeObject, kind: nat, n: nat, q: nat, l1: int, n1: nat)
    requires ObjectAt(file, p, o) && IsNext(o, l, kind, n, false, l1, n1) && q == p + o.Size()
    ensures Find(file, Place(p, l), kind, n, false, None) ==
            if n1 == 0 then Found(o.Head(), Place(q, l1)) else Find(file, Place(q, l1), kind, n1, false, None)
  {
    hide ObjectAt;
    hide NextObject;
    NextObjectForward(file, p, l, o, n);
    ForwardOverObject(file, p, o);
  }

  lemma FindBackOverObject(file: seq<Byte>, p: nat, l: int, o: TapeObject, kind: nat, n: nat, q: nat, l1: int, n1: nat)
    requires ObjectAt(file, p, o) && IsNext(o, l, kind, n, true, l1, n1) && q == p + o.Size()
    ensures Find(file, Place(q, l), kind, n, true, None) ==
            if n1 == 0 then Found(o.Head(), Place(p, l1)) else Find(file, Place(p, l1), kind, n1, true, None)
  {
    hide ObjectAt;
    hide NextObject;
    NextObjectBack(file, p, l, o, n);
  }

  lemma SpaceableRest(objs: seq<TapeObject>, kind: nat, n: nat)
    requires objs != [] && Spaceable(objs, kind, n) && objs[|objs| - 1].IsKind(kind)
    ensures var n1 := if objs[0].IsKind(kind) then n - 1 else n;
            if n1 == 0 then objs[1..] == []
            else objs[1..] != [] && objs[1..][|objs[1..]| - 1].IsKind(kind) && Spaceable(objs[1..], kind, n1)
  {
    var rest := objs[1..];
    assert CountKind(objs, kind) == (if objs[0].IsKind(kind) then 1 else 0) + CountKind(rest, kind);
    if |objs| > 1 {
      assert rest[|rest| - 1] == objs[|objs| - 1];
      if CountKind(rest, kind) == 0 {
        NoneOfKind(rest, kind);
      }
    } else {
      assert rest == [];
    }
  }

  lemma SpaceableInit(objs: seq<TapeObject>, kind: nat, n: nat)
    requires objs != [] && Spaceable(objs, kind, n) && objs[0].IsKind(kind)
    ensures var init, o := objs[..|objs| - 1], objs[|objs| - 1];
            var n1 := if o.IsKind(kind) then n - 1 else n;
            if n1 == 0 then init == [] else init != [] && init[0].IsKind(kind) && Spaceable(init, kind, n1)
  {
    var init, o := objs[..|objs| - 1], objs[|objs| - 1];
    assert objs == init + [o];
    CountKindSplit(init, [o], kind);
    CountKindOne(o, kind);
    if |objs| > 1 {
      assert init[0] == objs[0];
      if CountKind(init, kind) == 0 {
        NoneOfKind(init, kind);
      }
    } else {
      assert init == [];
    }
  }

  lemma HoldsRest(file: seq<Byte>, p: nat, objs: seq<TapeObject>)
    requires objs != [] && Holds(file, p, objs)
    ensures var o, rest := objs[0], objs[1..];
            && ObjectAt(file, p, o) && Holds(file, p + o.Size(), rest) && End(p, objs) == End(p + o.Size(), rest)
            && CountedObjects(objs) == CountedObjects(rest) + if o.Gap? then 0 else 1
  {
    hide ObjectAt;
  }

  lemma HoldsCons(file: seq<Byte>, p: nat, o: TapeObject, rest: seq<TapeObject>)
    ensures Holds(file, p, [o] + rest) <==> ObjectAt(file, p, o) && Holds(file, p + o.Size(), rest)
    ensures End(p, [o] + rest) == End(p + o.Size(), rest)
    ensures CountedObjects([o] + rest) == CountedObjects(rest) + if o.Gap? then 0 else 1
  {
    hide ObjectAt;
    assert ([o] + rest)[1..] == rest;
  }

  // Spacing forward over n objects ends right behind the n-th.
  lemma {:induction false} FindForward(file: seq<Byte>, p: nat, l: int, objs: seq<TapeObject>, kind: nat, n: nat)
    requires objs != [] && Holds(file, p, objs) && Spaceable(objs, kind, n) && objs[|objs| - 1].IsKind(kind)
    ensures Find(file, Place(p, l), kind, n, false, None) ==
            Found(objs[|objs| - 1].Head(), Place(End(p, objs), l + CountedObjects(objs)))
    decreases |objs|
  {
    hide Find;
    hide ObjectAt;
    var o, rest := objs[0], objs[1..];
    var q: nat, l1, n1 := p + o.Size(), if o.Gap? then l else l + 1, if o.IsKind(kind) then n - 1 else n;
    HoldsRest(file, p, objs);
    SpaceableRest(objs, kind, n);
    hide Holds;
    FindOverObject(file, p, l, o, kind, n, q, l1, n1);
    hide Spaceable;
    if n1 != 0 {
      FindForward(file, q, l1, rest, kind, n1);
    }
  }

  lemma HoldsInit(file: seq<Byte>, p: nat, objs: seq<TapeObject>)
    requires objs != [] && Holds(file, p, objs)
    ensures var init, o := objs[..|objs| - 1], objs[|objs| - 1];
            && Holds(file, p, init) && ObjectAt(file, End(p, init), o) && End(p, objs) == End(p, init) + o.Size()
            && CountedObjects(objs) == CountedObjects(init) + if o.Gap? then 0 else 1
  {
    hide ObjectAt;
    var init, o := objs[..|objs| - 1], objs[|objs| - 1];
    assert objs == init + [o];
    HoldsSplit(file, p, init, [o]);
    assert CountedObjects([o]) == if o.Gap? then 0 else 1;
    assert End(End(p, init), [o]) == End(p, init) + o.Size();
  }

  // Spacing back over n objects ends right in front of the n-th.
  lemma {:induction false} FindBack(file: seq<Byte>, p: nat, l: int, objs: seq<TapeObject>, kind: nat, n: nat)
    requires objs != [] && Holds(file, p, objs) && Spaceable(objs, kind, n) && objs[0].IsKind(kind)
    ensures Find(file, Place(End(p, objs), l), kind, n, true, None) ==
            Found(objs[0].Head(), Place(p, l - CountedObjects(objs)))
    decreases |objs|
  {
    hide Find;
    hide ObjectAt;
    var init, o := objs[..|objs| - 1], objs[|objs| - 1];
    var q: nat, l1, n1 := End(p, init), if o.Gap? then l else l - 1, if o.IsKind(kind) then n - 1 else n;
    HoldsInit(file, p, objs);
    SpaceableInit(objs, kind, n);
    hide Holds;
    FindBackOverObject(file, q, l, o, kind, n, q + o.Size(), l1, n1);
    hide Spaceable;
    if n1 != 0 {
      FindBack(file, p, l1, init, kind, n1);
    }
  }

  lemma SpaceThere(file: seq<Byte>, p: nat, l: int, front: seq<TapeObject>, objs: seq<TapeObject>, kind: nat, n: nat)
    requires objs != [] && Holds(file, p, front + objs) && Spaceable(front + objs, kind, n)
    requires objs[|objs| - 1].IsKind(kind) && CountKind(front, kind) == 0
    ensures Find(file, Place(p, l), kind, n, false, None) ==
            Found(objs[|objs| - 1].Head(), Place(End(p, front + objs), l + CountedObjects(front + objs)))
    ensures End(p, front) >= 0 && Holds(file, End(p, front), objs) && Spaceable(objs, kind, n)
    ensures End(p, front + objs) == End(End(p, front), objs)
    ensures CountedObjects(front + objs) == CountedObjects(front) + CountedObjects(objs)
  {
    hide Find;
    hide ObjectAt;
    var all := front + objs;
    assert all[|all| - 1] == objs[|objs| - 1];
    HoldsSplit(file, p, front, objs);
    FindForward(file, p, l, all, kind, n);
    CountKindSplit(front, objs, kind);
  }

  // SPACE over n blocks, or n filemarks, and back ends in front of the first object of the kind. What lies in front of
  // this object is passed once only: the position is the earlier one if there is nothing, and the object location if
  // there are only gaps. For blocks there can only be gaps, but blocks may lie in front of the first filemark.
  lemma SpaceThereAndBack(file: seq<Byte>, p: nat, l: int, front: seq<TapeObject>, objs: seq<TapeObject>, kind: nat,
                          n: nat)
    requires objs != [] && Holds(file, p, front + objs) && Spaceable(front + objs, kind, n)
    requires objs[0].IsKind(kind) && objs[|objs| - 1].IsKind(kind) && CountKind(front, kind) == 0
    ensures var there := Find(file, Place(p, l), kind, n, false, None);
            && there.Found? && there.place == Place(End(p, front + objs), l + CountedObjects(front + objs))
            && var back := Find(file, there.place, kind, n, true, None);
               && back.Found? && back.place == Place(End(p, front), l + CountedObjects(front))
               && (back.place.position == p <==> front == [])
               && (back.place.location == l <==> forall o :: o in front ==> o.Gap?)
    ensures kind == BLOCK ==> forall o :: o in front ==> o.Gap?
  {
    hide Find;
    hide Holds;
    SpaceThere(file, p, l, front, objs, kind, n);
    OnlyGaps(p, front);
    if kind == BLOCK {
      assert forall o :: o in front ==> o in front + objs;
      NoneOfKind(front, kind);
    }
    hide Spaceable;
    FindBack(file, End(p, front), l + CountedObjects(front + objs), objs, kind, n);
  }

  lemma {:induction false} OnlyGaps(p: int, objs: seq<TapeObject>)
    ensures CountedObjects(objs) == 0 <==> forall o :: o in objs ==> o.Gap?
    ensures End(p, objs) == p <==> objs == []
    decreases |objs|
  {
    if objs != [] {
      OnlyGaps(p, objs[1..]);
      assert objs == [objs[0]] + objs[1..];
    }
  }

  // Searching is stopped by a filemark among blocks, and by the end of the data: the position is behind the filemark,
  // but in front of the end of data.
  lemma StoppedByFilemark(file: seq<Byte>, p: nat, l: int, n: nat)
    requires ObjectAt(file, p, Filemark) && 0 < n
    ensures Find(file, Place(p, l), BLOCK, n, false, None) == Stopped(FilemarkFound(n), Place(p + 4, l + 1))
    ensures Find(file, Place(p + 4, l), BLOCK, n, true, None) == Stopped(FilemarkFound(0 - n), Place(p, l - 1))
  {
    hide ObjectAt;
    hide NextObject;
    NextObjectForward(file, p, l, Filemark, n);
    NextObjectBack(file, p, l, Filemark, n);
  }

  const END_OF_DATA: MetaData := MetaData(PRIVATE_MARKER, END_OF_DATA_TYPE * 0x100_0000 + PRIVATE_MARKER_MAGIC)

  lemma EndOfDataStops(file: seq<Byte>, p: nat, l: int, kind: nat, n: int, read: Option<int>)
    requires MetaAt(file, p, END_OF_DATA)
    ensures Find(file, Place(p, l), kind, n, false, read) ==
            if kind == END_OF_DATA_TYPE then Found(END_OF_DATA, Place(p + 4, l)) else Stopped(EndOfData(n), Place(p, l))
  {
    DecodeEncode(END_OF_DATA);
  }

  // Spacing back over more objects than there are ends at the beginning of the partition.
  lemma BeginningStops(file: seq<Byte>, l: int, kind: nat, n: nat)
    ensures Find(file, Place(0, l), kind, n, true, None) == Stopped(BeginningOfPartition(n), Place(0, 0))
  {
  }

  datatype LocateResult = Located(place: Place) | NotFound(place: Place) | LocateStopped(stop: Stop, place: Place)

  const WORD_LIMIT: nat := 0x1_0000_0000

  predicate IsEndMarker(m: MetaData) {
    m.cls == PRIVATE_MARKER && m.value % 0x100_0000 == PRIVATE_MARKER_MAGIC
  }

  // FindObject: the place behind the n-th object, counted with 32 bits.
  function Locate(file: seq<Byte>, at: Place, n: nat): LocateResult
    decreases Room(file, at.position, false)
  {
    match NextObject(file, at, 0, false)
    case NoObject(stop, place) => LocateStopped(stop, place)
    case Object(_, _, m, place) =>
      if IsEndMarker(m) then NotFound(place)
      else
        var next := place.(position := place.position + Body(m));
        var left := (n + WORD_LIMIT - 1) % WORD_LIMIT;
        if left == 0 then Located(next) else Locate(file, next, left)
  }

  lemma LocateOverObject(file: seq<Byte>, p: nat, l: int, o: TapeObject, n: nat, q: nat)
    requires ObjectAt(file, p, o) && 0 < n < WORD_LIMIT && q == p + o.Size()
    ensures Locate(file, Place(p, l), n) ==
            if o.Gap? then Locate(file, Place(q, l), n)
            else if n == 1 then Located(Place(q, l + 1))
            else Locate(file, Place(q, l + 1), n - 1)
  {
    hide ObjectAt;
    hide NextObject;
    NextObjectForward(file, p, l, o, 0);
    ForwardOverObject(file, p, o);
  }

  // LOCATE n ends right behind the n-th object, with n as the object location.
  lemma {:induction false} LocateFinds(file: seq<Byte>, p: nat, l: int, objs: seq<TapeObject>, n: nat)
    requires objs != [] && Holds(file, p, objs) && CountedObjects(objs) == n < WORD_LIMIT && !objs[|objs| - 1].Gap?
    ensures Locate(file, Place(p, l), n) == Located(Place(End(p, objs), l + n))
    decreases |objs|
  {
    hide ObjectAt;
    hide Locate;
    var o, rest := objs[0], objs[1..];
    var q: nat, l1, n1 := p + o.Size(), if o.Gap? then l else l + 1, if o.Gap? then n else n - 1;
    assert Holds(file, q, rest) && CountedObjects(rest) == n1;
    SomethingCounted(objs);
    LocateOverObject(file, p, l, o, n, q);
    if rest != [] {
      assert rest[|rest| - 1] == objs[|objs| - 1];
      SomethingCounted(rest);
      LocateFinds(file, q, l1, rest, n1);
    }
  }

  lemma {:induction false} SomethingCounted(objs: seq<TapeObject>)
    requires objs != [] && !objs[|objs| - 1].Gap?
    ensures CountedObjects(objs) > 0
  {
    if |objs| > 1 {
      assert objs[1..][|objs| - 2] == objs[|objs| - 1];
      SomethingCounted(objs[1..]);
    }
  }

  // LOCATE beyond the last object fails at the end of the data.
  lemma {:induction false} LocateFails(file: seq<Byte>, p: nat, l: int, objs: seq<TapeObject>, n: nat)
    requires Holds(file, p, objs) && End(p, objs) >= 0 && MetaAt(file, End(p, objs), END_OF_DATA)
    requires CountedObjects(objs) < n < WORD_LIMIT
    ensures Locate(file, Place(p, l), n) == NotFound(Place(End(p, objs) + 4, l + CountedObjects(objs)))
    decreases |objs|
  {
    hide *;
    if objs == [] {
      EndOfNothing(p);
      LocateAtEnd(file, p, l, objs, n);
    }
    if objs != [] {
      var o, rest := objs[0], objs[1..];
      HoldsRest(file, p, objs);
      LocateStep(file, p, l, objs, n);
      LocateFails(file, p + o.Size(), if o.Gap? then l else l + 1, rest, if o.Gap? then n else n - 1);
    }
  }

  lemma LocateAtEnd(file: seq<Byte>, p: nat, l: int, objs: seq<TapeObject>, n: nat)
    requires MetaAt(file, p, END_OF_DATA)
    ensures objs == [] ==> Locate(file, Place(p, l), n) == NotFound(Place(End(p, objs) + 4, l + CountedObjects(objs)))
  {
    DecodeEncode(END_OF_DATA);
  }

  lemma EndOfNothing(p: int)
    ensures End(p, []) == p
  {
  }

  lemma LocateStep(file: seq<Byte>, p: nat, l: int, objs: seq<TapeObject>, n: nat)
    requires objs != [] && ObjectAt(file, p, objs[0]) && CountedObjects(objs) < n < WORD_LIMIT
    ensures var o := objs[0];
            var q := p + o.Size();
            Locate(file, Place(p, l), n) ==
            if o.Gap? then Locate(file, Place(q, l), n) else Locate(file, Place(q, l + 1), n - 1)
  {
    hide ObjectAt;
    hide Locate;
    LocateOverObject(file, p, l, objs[0], n, p + objs[0].Size());
  }

  // READ looks for the next block: behind gaps there is one, a bad one, a filemark or the end of the data.
  lemma {:induction false} ReadFinds(file: seq<Byte>, p: nat, l: int, gaps: seq<TapeObject>, o: TapeObject, info: int)
    requires Holds(file, p, gaps + [o]) && (forall g :: g in gaps ==> g.Gap?) && !o.Gap?
    ensures Find(file, Place(p, l), BLOCK, 0, false, Some(info)) ==
            if o.Filemark? then Stopped(FilemarkFound(info), Place(End(p, gaps) + o.Size(), l + 1))
            else Found(o.Head(), Place(End(p, gaps) + o.Size(), l + 1))
    decreases |gaps|
  {
    hide ObjectAt;
    hide NextObject;
    var all := gaps + [o];
    NextObjectForward(file, p, l, all[0], 0);
    ForwardOverObject(file, p, all[0]);
    if gaps != [] {
      assert gaps[0] in gaps && all[1..] == gaps[1..] + [o] && all[0] == gaps[0];
      hide Find;
      FindSkips(file, Place(p, l), Place(p + 4, l), info);
      ReadFinds(file, p + 4, l, gaps[1..], o, info);
    }
  }

  lemma FindSkips(file: seq<Byte>, at: Place, next: Place, info: int)
    requires NextObject(file, at, 0, false) == NextObject(file, next, 0, false)
    ensures Find(file, at, BLOCK, 0, false, Some(info)) == Find(file, next, BLOCK, 0, false, Some(info))
  {
    hide NextObject;
  }

  lemma ClassifyKeepsPlace(m: MetaData, next: Place, count: int)
    requires Classify(m, next, count).Some?
    ensures Classify(m, next, count).value.place == next
  {
  }

  // Skipped meta data bring a search closer to its end.
  lemma SkipIsProgress(file: seq<Byte>, position: int, reverse: bool, s: Step, next: int, place: Place, count: int)
    requires s == NextMetaData(file, position, reverse) && s.Read? && Classify(s.meta, place, count).None?
    requires next == s.position + if reverse then 0 else Body(s.meta)
    ensures Room(file, next, reverse) < Room(file, position, reverse)
  {
  }

  // A search that finds something has moved on.
  lemma {:induction false} FindIsProgress(file: seq<Byte>, at: Place, kind: nat, count: int, read: Option<int>)
    ensures var f := Find(file, at, kind, count, false, read);
            f.Found? ==> Room(file, f.place.position, false) < Room(file, at.position, false)
    decreases Room(file, at.position, false)
  {
    var o := NextObject(file, at, count, false);
    if o.Object? && Judge(o, kind, count, false, read).None? {
      hide NextObject;
      FindIsProgress(file, o.place.(position := o.place.position + Body(o.meta)), kind,
                     if kind != END_OF_DATA_TYPE && o.kind == kind then count - 1 else count, read);
    }
  }
}
