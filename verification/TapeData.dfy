// What reading and writing blocks means for a tape image.
module TapeData {
  import opened Basics
  import opened Simh
  import opened TapeModel

  // Write into a file, which grows if necessary; a gap in front of the data is filled with zeros.
  function Overwrite(f: seq<Byte>, p: nat, d: seq<Byte>): (r: seq<Byte>)
    ensures d == [] ==> r == f
    ensures d != [] ==> |r| == (if |f| > p + |d| then |f| else p + |d|) && r[p..p + |d|] == d
    ensures forall i :: 0 <= i < p && i < |f| ==> r[i] == f[i]
  {
    if d == [] then f else
    var head := if p <= |f| then f[..p] else f + seq(p - |f|, _ => 0);
    head + d + if p + |d| < |f| then f[p + |d|..] else []
  }

  lemma OverwriteAt(f: seq<Byte>, p: nat, d: seq<Byte>, i: nat)
    requires i < |Overwrite(f, p, d)|
    ensures Overwrite(f, p, d)[i] ==
            if p <= i < p + |d| then d[i - p] else if i < |f| then f[i] else 0
  {
  }

  // What is written over the front of what has been written before replaces it.
  lemma OverwriteTwice(f: seq<Byte>, p: nat, a: seq<Byte>, b: seq<Byte>, c: seq<Byte>)
    ensures Overwrite(Overwrite(f, p, a + b), p + |a|, c) == Overwrite(f, p, a + c + if |c| < |b| then b[|c|..] else [])
  {
    hide Overwrite;
    var l := Overwrite(Overwrite(f, p, a + b), p + |a|, c);
    var r := Overwrite(f, p, a + (c + if |c| < |b| then b[|c|..] else []));
    assert a + (c + if |c| < |b| then b[|c|..] else []) == a + c + if |c| < |b| then b[|c|..] else [];
    OverwriteTwiceLength(f, p, a, b, c);
    forall i: nat | i < |l|
      ensures l[i] == r[i]
    {
      OverwriteTwiceAt(f, p, a, b, c, i);
    }
  }

  lemma OverwriteTwiceLength(f: seq<Byte>, p: nat, a: seq<Byte>, b: seq<Byte>, c: seq<Byte>)
    ensures |Overwrite(Overwrite(f, p, a + b), p + |a|, c)| ==
            |Overwrite(f, p, a + (c + if |c| < |b| then b[|c|..] else []))|
  {
    hide Overwrite;
  }

  lemma OverwriteTwiceAt(f: seq<Byte>, p: nat, a: seq<Byte>, b: seq<Byte>, c: seq<Byte>, i: nat)
    requires i < |Overwrite(Overwrite(f, p, a + b), p + |a|, c)|
    ensures i < |Overwrite(f, p, a + (c + if |c| < |b| then b[|c|..] else []))|
    ensures Overwrite(Overwrite(f, p, a + b), p + |a|, c)[i] ==
            Overwrite(f, p, a + (c + if |c| < |b| then b[|c|..] else []))[i]
  {
    hide Overwrite;
    var first := Overwrite(f, p, a + b);
    var rest := c + if |c| < |b| then b[|c|..] else [];
    OverwriteTwiceLength(f, p, a, b, c);
    OverwriteAt(first, p + |a|, c, i);
    OverwriteAt(f, p, a + rest, i);
    if i < |first| {
      OverwriteAt(f, p, a + b, i);
    }
    if p + |a| <= i < p + |a| + |rest| {
      assert (a + rest)[i - p] == rest[i - p - |a|];
    }
  }

  // A block as it is written at a position, padded so that the next object is at an even one.
  function Padding(at: nat, n: nat): seq<Byte> {
    if (at + n) % 2 == 1 then [0] else []
  }

  function Record(at: nat, data: seq<Byte>): seq<Byte>
    requires |data| < VALUE_LIMIT
  {
    var meta := ToLittleEndian(MetaData(GOOD_DATA, |data|));
    meta + data + Padding(at, |data|) + meta
  }

  // Data in blocks of n bytes
  function Records(at: nat, data: seq<Byte>, n: nat): seq<Byte>
    requires 0 < n < VALUE_LIMIT
    decreases |data|
  {
    if data == [] then []
    else
      var k := Min(n, |data|);
      var r := Record(at, data[..k]);
      r + Records(at + |r|, data[k..], n)
  }

  function BlocksOf(data: seq<Byte>, n: nat): seq<TapeObject>
    requires 0 < n < VALUE_LIMIT
    decreases |data|
  {
    if data == [] then []
    else
      var k := Min(n, |data|);
      [Block(false, data[..k])] + BlocksOf(data[k..], n)
  }

  predicate BytesAt(file: seq<Byte>, p: nat, b: seq<Byte>) {
    p + |b| <= |file| && file[p..p + |b|] == b
  }

  lemma BytesSplit(file: seq<Byte>, p: nat, a: seq<Byte>, b: seq<Byte>)
    ensures BytesAt(file, p, a + b) <==> BytesAt(file, p, a) && BytesAt(file, p + |a|, b)
  {
    if p + |a + b| <= |file| {
      var x, y := file[p..p + |a|], file[p + |a|..p + |a| + |b|];
      assert file[p..p + |a + b|] == x + y;
      assert (x + y)[..|a|] == x && (x + y)[|a|..] == y;
      assert (a + b)[..|a|] == a && (a + b)[|a|..] == b;
    }
  }

  lemma RecordParts(file: seq<Byte>, at: nat, meta: seq<Byte>, data: seq<Byte>, pad: seq<Byte>)
    requires BytesAt(file, at, meta + data + pad + meta)
    ensures BytesAt(file, at, meta) && BytesAt(file, at + |meta|, data)
    ensures BytesAt(file, at + |meta| + |data| + |pad|, meta)
  {
    hide BytesAt;
    BytesSplit(file, at, meta + data + pad, meta);
    BytesSplit(file, at, meta + data, pad);
    BytesSplit(file, at, meta, data);
  }

  lemma RecordIsObject(file: seq<Byte>, at: nat, data: seq<Byte>)
    requires 0 < |data| < VALUE_LIMIT && at % 2 == 0 && BytesAt(file, at, Record(at, data))
    ensures ObjectAt(file, at, Block(false, data)) && |Record(at, data)| == Block(false, data).Size()
    ensures |Record(at, data)| % 2 == 0
  {
    var meta, pad, o := ToLittleEndian(MetaData(GOOD_DATA, |data|)), Padding(at, |data|), Block(false, data);
    assert |data| + |pad| == Pad(|data|);
    hide ToLittleEndian;
    RecordParts(file, at, meta, data, pad);
    hide Record;
    hide Padding;
    assert o.Size() == |data| + |pad| + 8;
  }

  lemma FirstRecord(at: nat, data: seq<Byte>, n: nat)
    requires 0 < n < VALUE_LIMIT && data != []
    ensures n <= |data| ==> BlocksOf(data, n) == [Block(false, data[..n])] + BlocksOf(data[n..], n)
    ensures var k := Min(n, |data|);
            0 < k <= |data| && k < VALUE_LIMIT
            && var r := Record(at, data[..k]);
            && Records(at, data, n) == r + Records(at + |r|, data[k..], n)
            && BlocksOf(data, n) == [Block(false, data[..k])] + BlocksOf(data[k..], n)
  {
  }

  // Records that were written from an even position on are blocks.
  lemma {:induction false} RecordsAreBlocks(file: seq<Byte>, at: nat, data: seq<Byte>, n: nat)
    requires 0 < n < VALUE_LIMIT && at % 2 == 0 && BytesAt(file, at, Records(at, data, n))
    ensures Holds(file, at, BlocksOf(data, n)) && End(at, BlocksOf(data, n)) == at + |Records(at, data, n)|
    decreases |data|
  {
    hide *;
    NoRecords(file, at, n);
    if data != [] {
      FirstRecord(at, data, n);
      var k := Min(n, |data|);
      var r := Record(at, data[..k]);
      var rest := Records(at + |r|, data[k..], n);
      BytesSplit(file, at, r, rest);
      RecordIsObject(file, at, data[..k]);
      RecordsAreBlocks(file, at + |r|, data[k..], n);
      HoldsCons(file, at, Block(false, data[..k]), BlocksOf(data[k..], n));
    }
  }

  lemma NoRecords(file: seq<Byte>, at: nat, n: nat)
    requires 0 < n < VALUE_LIMIT
    ensures Holds(file, at, BlocksOf([], n)) && End(at, BlocksOf([], n)) == at && Records(at, [], n) == []
  {
  }

  // The part of a WRITE that is done: the file is the one before, with what has been written from the start on, and a
  // tail that the next bytes replace.
  datatype Track = Track(base: seq<Byte>, start: nat, written: seq<Byte>, tail: seq<Byte>) {
    function File(): seq<Byte> {
      Overwrite(base, start, written + tail)
    }

    function Position(): nat {
      start + |written|
    }

    function With(c: seq<Byte>): Track {
      this.(written := written + c, tail := if |c| < |tail| then tail[|c|..] else [])
    }

    lemma More(c: seq<Byte>)
      ensures Overwrite(File(), Position(), c) == With(c).File()
    {
      hide Overwrite;
      OverwriteTwice(base, start, written, tail, c);
    }

    lemma Ahead(c: seq<Byte>)
      requires |tail| <= |c|
      ensures Overwrite(File(), Position(), c) == this.(tail := c).File()
    {
      hide Overwrite;
      OverwriteTwice(base, start, written, tail, c);
      assert written + c == written + c + [];
    }
  }

  function Good(n: nat): seq<Byte>
    requires n < VALUE_LIMIT
  {
    ToLittleEndian(MetaData(GOOD_DATA, n))
  }

  // What ends a record at a position.
  function Closing(at: nat, n: nat): seq<Byte>
    requires n < VALUE_LIMIT
  {
    Padding(at, 0) + Good(n)
  }

  // What has been written once another chunk is, with the lengths of its record in front of it and behind it.
  function ChunkOf(t: Track, first: bool, data: seq<Byte>, last: bool, n: nat): seq<Byte>
    requires n < VALUE_LIMIT
  {
    var head := t.written + (if first then Good(n) else []) + data;
    head + if last then Closing(t.start + |head|, n) else []
  }

  function EndOfDataAt(at: nat, fileSize: nat): seq<Byte> {
    if fileSize >= at + META_DATA_SIZE then ToLittleEndian(END_OF_DATA) else []
  }

  lemma EndOfDataOrNothing(fileSize: nat)
    ensures forall at: nat :: EndOfDataAt(at, fileSize) in {[], ToLittleEndian(END_OF_DATA)}
  {
  }

  // How far a WRITE has come: done bytes are written, in records of n bytes, and count records are complete.
  predicate WriteProgress(start: nat, written: seq<Byte>, data: seq<Byte>, done: nat, n: nat, fixed: bool, count: nat) {
    && 0 < n < VALUE_LIMIT && done <= |data|
    && if fixed then
         && written + Records(start + |written|, data[done..], n) == Records(start, data, n)
         && count + |BlocksOf(data[done..], n)| == |BlocksOf(data, n)|
       else
         && n == |data|
         && (done == 0 ==> written == [] && count == 0)
         && (0 < done < n ==> written == Good(n) + data[..done] && count == 0)
         && (done == n ==> written == Record(start, data) && count == 1)
  }

  lemma PaddingAt(at: nat, k: nat)
    ensures Padding(at + k, 0) == Padding(at, k) && Padding(at + 4, k) == Padding(at, k)
  {
  }

  // A chunk that is a record of its own
  lemma ChunkIsRecord(t: Track, chunk: seq<Byte>)
    requires 0 < |chunk| < VALUE_LIMIT
    ensures ChunkOf(t, true, chunk, true, |chunk|) == t.written + Record(t.Position(), chunk)
  {
    var g := Good(|chunk|);
    PaddingAt(t.Position() + 4, |chunk|);
    PaddingAt(t.Position(), |chunk|);
    assert t.start + |t.written + g + chunk| == t.Position() + 4 + |chunk|;
    assert t.written + g + chunk + (Padding(t.Position(), |chunk|) + g)
        == t.written + (g + chunk + Padding(t.Position(), |chunk|) + g);
  }

  lemma ConcatAssociates<T>(a: seq<T>, b: seq<T>, c: seq<T>)
    ensures a + (b + c) == a + b + c && |a + b| == |a| + |b|
  {
  }

  lemma FixedRest(t: Track, rest: seq<Byte>, n: nat, chunk: seq<Byte>, after: seq<Byte>)
    requires 0 < n < VALUE_LIMIT && n <= |rest| && chunk == rest[..n] && after == rest[n..]
    ensures var w := ChunkOf(t, true, chunk, true, n);
            t.written + Records(t.Position(), rest, n) == w + Records(t.start + |w|, after, n)
    ensures |BlocksOf(rest, n)| == 1 + |BlocksOf(after, n)|
  {
    hide ChunkOf;
    hide Record;
    hide Records;
    hide BlocksOf;
    FirstRecord(t.Position(), rest, n);
    ChunkIsRecord(t, chunk);
    var r := Record(t.Position(), chunk);
    ConcatAssociates(t.written, r, Records(t.Position() + |r|, after, n));
  }

  lemma SliceTwice(data: seq<Byte>, done: nat, n: nat)
    requires done + n <= |data|
    ensures data[done..][..n] == data[done..done + n] && data[done..][n..] == data[done + n..]
  {
  }

  lemma FixedStep(t: Track, data: seq<Byte>, done: nat, n: nat, count: nat, chunk: seq<Byte>)
    requires WriteProgress(t.start, t.written, data, done, n, true, count)
    requires n <= |data| - done && chunk == data[done..done + n]
    ensures WriteProgress(t.start, ChunkOf(t, true, chunk, true, n), data, done + n, n, true, count + 1)
  {
    hide ChunkOf;
    hide Records;
    hide BlocksOf;
    var rest, after := data[done..], data[done + n..];
    SliceTwice(data, done, n);
    FixedRest(t, rest, n, chunk, after);
  }

  lemma VariableStep(t: Track, data: seq<Byte>, done: nat, count: nat, k: nat)
    requires WriteProgress(t.start, t.written, data, done, |data|, false, count) && 0 < k <= |data| - done
    ensures WriteProgress(t.start, ChunkOf(t, done == 0, data[done..done + k], done + k == |data|, |data|),
                          data, done + k, |data|, false, if done + k == |data| then 1 else 0)
    ensures count == 0
  {
    hide Records;
    hide BlocksOf;
    hide Padding;
    var n := |data|;
    var head := t.written + (if done == 0 then Good(n) else []) + data[done..done + k];
    assert data[..done] + data[done..done + k] == data[..done + k];
    assert head == Good(n) + data[..done + k];
    if done + k == n {
      assert data[..n] == data;
      PaddingAt(t.start + 4, n);
      PaddingAt(t.start, n);
      assert head + (Padding(t.start, n) + Good(n)) == Good(n) + data + Padding(t.start, n) + Good(n);
    }
  }

  lemma WriteDone(start: nat, written: seq<Byte>, data: seq<Byte>, n: nat, fixed: bool, count: nat)
    requires WriteProgress(start, written, data, |data|, n, fixed, count) && data != []
    ensures written == Records(start, data, n) && count == |BlocksOf(data, n)|
  {
    if fixed {
      assert data[|data|..] == [];
      assert written + [] == written;
    } else {
      FirstRecord(start, data, n);
      assert data[..n] == data && data[n..] == [];
      assert Record(start, data) + [] == Record(start, data);
    }
  }

  predicate Whole(n: nat, size: nat) {
    size != 0 && n % size == 0
  }

  // With whole blocks, the next chunk is one of them.
  lemma WholeBlock(remaining: nat, size: nat, fixed: bool)
    requires 0 < remaining && 0 < size && (fixed ==> Whole(remaining, size))
    ensures fixed ==> size <= remaining && Whole(remaining - size, size)
  {
    if fixed {
      SmallRemainder(remaining, size);
      SubtractBlock(remaining, size);
    }
  }

  lemma SmallRemainder(a: nat, size: nat)
    requires 0 < size
    ensures a < size ==> a % size == a
  {
  }

  lemma SubtractBlock(remaining: nat, size: nat)
    requires 0 < size <= remaining
    ensures (remaining - size) % size == remaining % size
  {
    var q, r := remaining / size, remaining % size;
    assert remaining - size == (q - 1) * size + r;
    DivisionIsUnique(remaining - size, size, q - 1, r);
  }

  lemma DivisionIsUnique(a: nat, size: nat, q: int, r: nat)
    requires 0 < size && a == q * size + r && r < size
    ensures a % size == r
  {
    var x := a / size;
    assert a == x * size + a % size;
    if q > x {
      assert (q - x) * size >= size by { Multiple(q - x, size); }
    } else if q < x {
      assert (x - q) * size >= size by { Multiple(x - q, size); }
    }
  }

  lemma Multiple(n: nat, size: nat)
    requires n >= 1
    ensures n * size >= size
  {
    assert n * size == (n - 1) * size + size;
  }

  lemma WriteBegins(start: nat, data: seq<Byte>, n: nat, fixed: bool)
    requires 0 < n < VALUE_LIMIT && data != [] && (!fixed ==> n == |data|)
    ensures WriteProgress(start, [], data, 0, n, fixed, 0)
  {
    assert data[0..] == data;
    assert [] + Records(start, data, n) == Records(start, data, n);
  }

  // Whether a READ of a number of bytes reports an incorrect length.
  predicate Incorrect(recordLength: nat, count: nat, sili: bool) {
    recordLength != count && (!sili || count > recordLength)
  }

  // Whether a search for READ has found a record, and why not.
  predicate IsReadable(f: Search) {
    f.Found? && !(f.meta.cls == BAD_DATA && f.meta.value == 0)
  }

  function StopOf(f: Search): Stop
    requires !IsReadable(f)
  {
    if f.Stopped? then f.stop else MediumError
  }

  lemma {:induction false} FoundIsRecord(file: seq<Byte>, at: Place, info: int)
    ensures var f := Find(file, at, BLOCK, 0, false, Some(info));
            f.Found? ==> f.meta.value != 0 || (f.meta.cls == BAD_DATA && f.meta.value == 0)
    decreases Room(file, at.position, false)
  {
    ObjectIsRecord(file, at);
    hide NextObject;
    var o := NextObject(file, at, 0, false);
    if o.Object? && Judge(o, BLOCK, 0, false, Some(info)).None? {
      FoundIsRecord(file, o.place.(position := o.place.position + Body(o.meta)), info);
    }
  }

  lemma {:induction false} ObjectIsRecord(file: seq<Byte>, at: Place)
    ensures var o := NextObject(file, at, 0, false);
            o.Object? && o.kind == BLOCK ==> o.meta.value != 0 || (o.meta.cls == BAD_DATA && o.meta.value == 0)
    decreases Room(file, at.position, false)
  {
    var s := NextMetaData(file, at.position, false);
    if s.Read? {
      var next := Place(s.position, Counted(at.location, s.meta, false));
      if Classify(s.meta, next, 0).None? {
        SkipIsProgress(file, at.position, false, s, s.position + Body(s.meta), next, 0);
        ObjectIsRecord(file, next.(position := s.position + Body(s.meta)));
      }
    }
  }

  datatype Result = Bytes(bytes: seq<Byte>) | Failed(stop: Stop)

  // The length behind a record is the one in front of it.
  predicate TrailerFits(file: seq<Byte>, t: int, n: nat) {
    0 <= t && t + META_DATA_SIZE <= |file| && FromLittleEndian(file[t..t + META_DATA_SIZE]).value == n
  }

  datatype ReadResult = Data(bytes: seq<Byte>, ili: Option<int>, place: Place) | NotRead(stop: Stop)

  // The number of bytes that a READ of a record delivers.
  function ReadLength(recordLength: nat, count: nat, sili: bool): nat {
    if Incorrect(recordLength, count, sili) then Min(recordLength, count) else count
  }

  predicate Inside(file: seq<Byte>, p: int, n: nat) {
    0 <= p && p + n <= |file|
  }

  // READ of a record at once, from where its bytes begin.
  function ReadFound(file: seq<Byte>, start: int, recordLength: nat, location: int, count: nat,
                     sili: bool): ReadResult {
    var n := ReadLength(recordLength, count, sili);
    var t := start + Pad(recordLength);
    if Inside(file, start, n) && TrailerFits(file, t, recordLength) then
      Data(file[start..start + n], if Incorrect(recordLength, count, sili) then Some(count - recordLength) else None,
           Place(t + META_DATA_SIZE, location))
    else NotRead(MediumError)
  }

  // READ of a variable number of bytes.
  function ReadVariable(file: seq<Byte>, at: Place, count: nat, sili: bool, info: int): ReadResult {
    var f := Find(file, at, BLOCK, 0, false, Some(info));
    if IsReadable(f) then
      ReadFound(file, f.place.position - f.meta.value - META_DATA_SIZE, f.meta.value, f.place.location, count, sili)
    else NotRead(StopOf(f))
  }

  // The position behind a chunk, which skips the end of its record if it is the last one; None for a read error.
  function ChunkEnd(file: seq<Byte>, p: int, length: nat, start: int, recordLength: nat, last: bool): Option<int> {
    var t := start + Pad(recordLength);
    if !Inside(file, p, length) then None
    else if !last then Some(p + length)
    else if TrailerFits(file, t, recordLength) then Some(t + META_DATA_SIZE)
    else None
  }

  // A chunk and what follows is all of the record.
  predicate PartRead(file: seq<Byte>, start: int, n: nat, done: nat, recordLength: nat, bytes: seq<Byte>,
                     position: int) {
    && Inside(file, start, done) && bytes == file[start..start + done] && done <= n
    && (done < n ==> position == start + done)
    && (done == n ==> TrailerFits(file, start + Pad(recordLength), recordLength)
                      && position == start + Pad(recordLength) + META_DATA_SIZE)
  }

  lemma FirstPart(file: seq<Byte>, start: int, n: nat, recordLength: nat, k: nat)
    requires 0 < k <= n <= recordLength
    ensures var q := ChunkEnd(file, start, k, start, recordLength, k == n || k == recordLength);
            if q.Some? then PartRead(file, start, n, k, recordLength, file[start..start + k], q.value)
            else !(Inside(file, start, n) && TrailerFits(file, start + Pad(recordLength), recordLength))
  {
  }

  lemma PartReadGrows(file: seq<Byte>, start: int, n: nat, done: nat, recordLength: nat, bytes: seq<Byte>, k: nat)
    requires PartRead(file, start, n, done, recordLength, bytes, start + done) && done + k <= n
    ensures var q := ChunkEnd(file, start + done, k, start, recordLength, done + k == n);
            if q.Some? then
              PartRead(file, start, n, done + k, recordLength, bytes + file[start + done..start + done + k], q.value)
            else !(Inside(file, start, n) && TrailerFits(file, start + Pad(recordLength), recordLength))
  {
    if Inside(file, start + done, k) {
      assert file[start..start + done] + file[start + done..start + done + k] == file[start..start + done + k];
    }
  }

  function InFront(block: seq<Byte>, r: Option<ReadResult>): Option<ReadResult> {
    if r.Some? && r.value.Data? then Some(r.value.(bytes := block + r.value.bytes)) else r
  }

  // READ of blocks of one size, total bytes of them; None if it meets a record whose length does not divide the total.
  // Any other record takes the place of a block without an error, whatever its length.
  function ReadFixed(file: seq<Byte>, at: Place, count: nat, size: nat, total: nat, info: int): Option<ReadResult>
    requires 0 < size
    decreases count
  {
    if count < size then Some(Data([], None, at))
    else
      var f := Find(file, at, BLOCK, 0, false, Some(info));
      if !IsReadable(f) then Some(NotRead(StopOf(f)))
      else if !Whole(total, f.meta.value) then None
      else
        var start := f.place.position - f.meta.value - META_DATA_SIZE;
        var q := ChunkEnd(file, start, size, start, f.meta.value, true);
        if q.None? then Some(NotRead(MediumError))
        else
          InFront(file[start..start + size],
                  ReadFixed(file, Place(q.value, f.place.location), count - size, size, total, info))
  }

  lemma AllRead(file: seq<Byte>, at: Place, count: nat, sili: bool, info: int, n: nat, bytes: seq<Byte>, position: int)
    requires var f := Find(file, at, BLOCK, 0, false, Some(info));
             && IsReadable(f) && n == ReadLength(f.meta.value, count, sili)
             && PartRead(file, f.place.position - f.meta.value - META_DATA_SIZE, n, n, f.meta.value, bytes, position)
    ensures var f := Find(file, at, BLOCK, 0, false, Some(info));
            ReadVariable(file, at, count, sili, info) ==
            Data(bytes, if Incorrect(f.meta.value, count, sili) then Some(count - f.meta.value) else None,
                 Place(position, f.place.location))
  {
  }

  lemma NotAllRead(file: seq<Byte>, at: Place, count: nat, sili: bool, info: int, n: nat)
    requires var f := Find(file, at, BLOCK, 0, false, Some(info));
             && IsReadable(f) && n == ReadLength(f.meta.value, count, sili)
             && var start := f.place.position - f.meta.value - META_DATA_SIZE;
                !(Inside(file, start, n) && TrailerFits(file, start + Pad(f.meta.value), f.meta.value))
    ensures ReadVariable(file, at, count, sili, info) == NotRead(MediumError)
  {
  }

  lemma PartPosition(file: seq<Byte>, start: int, n: nat, done: nat, recordLength: nat, bytes: seq<Byte>, position: int)
    requires PartRead(file, start, n, done, recordLength, bytes, position)
    ensures done < n ==> position == start + done
  {
  }

  // The blocks read so far and the ones to come are the ones that are to be read.
  ghost predicate BlocksSoFar(total: Option<ReadResult>, bytes: seq<Byte>, rest: Option<ReadResult>) {
    total.Some? ==>
      && rest.Some?
      && total.value == if rest.value.Data? then rest.value.(bytes := bytes + rest.value.bytes) else rest.value
  }

  lemma BlocksBegin(total: Option<ReadResult>)
    ensures BlocksSoFar(total, [], total)
  {
    if total.Some? && total.value.Data? {
      assert [] + total.value.bytes == total.value.bytes;
    }
  }

  // One block of a READ with fixed length
  lemma ReadFixedStep(file: seq<Byte>, at: Place, count: nat, size: nat, total: nat, info: int)
    requires 0 < size <= count && IsReadable(Find(file, at, BLOCK, 0, false, Some(info)))
    ensures var f := Find(file, at, BLOCK, 0, false, Some(info));
            var start := f.place.position - f.meta.value - META_DATA_SIZE;
            var q := ChunkEnd(file, start, size, start, f.meta.value, true);
            ReadFixed(file, at, count, size, total, info) ==
            if !Whole(total, f.meta.value) then None
            else if q.None? then Some(NotRead(MediumError))
            else InFront(file[start..start + size],
                         ReadFixed(file, Place(q.value, f.place.location), count - size, size, total, info))
  {
    hide Find;
    hide ChunkEnd;
  }

  lemma BlocksGrow(total: Option<ReadResult>, bytes: seq<Byte>, block: seq<Byte>, rest: Option<ReadResult>)
    requires BlocksSoFar(total, bytes, InFront(block, rest))
    ensures BlocksSoFar(total, bytes + block, rest)
  {
    if rest.Some? && rest.value.Data? {
      assert bytes + (block + rest.value.bytes) == bytes + block + rest.value.bytes;
    }
  }

  lemma BlocksEnd(file: seq<Byte>, total: Option<ReadResult>, bytes: seq<Byte>, at: Place, size: nat, all: nat,
                  info: int)
    requires 0 < size && BlocksSoFar(total, bytes, ReadFixed(file, at, 0, size, all, info)) && total.Some?
    ensures total.value == Data(bytes, None, at)
  {
    assert bytes + [] == bytes;
  }

  lemma NoTotal(total: Option<ReadResult>, bytes: seq<Byte>, rest: Option<ReadResult>)
    ensures total.None? ==> BlocksSoFar(total, bytes, rest)
  {
  }

  // The counters of a READ, and the information for an incorrect length.
  datatype Counts = Counts(bytes: nat, remaining: nat, transfer: nat, chunk: nat, ili: Option<int>)

  // The counters once a record of a variable length is found.
  function Adjusted(c: Counts, recordLength: nat, sili: bool, size: nat): Counts {
    if Incorrect(recordLength, c.bytes, sili) then
      var n := Min(recordLength, c.bytes);
      Counts(n, n, n, Min(n, size), Some(c.bytes - recordLength))
    else c
  }

  // The outcome of a chunk: its bytes, the position behind it and the bytes still to be read, or a read error.
  predicate ChunkDone(file: seq<Byte>, p: int, chunk: nat, start: int, recordLength: nat, fixed: bool, c: Counts,
                      r: Result, position: int, after: Counts) {
    var k := Min(chunk, c.bytes);
    var left := c.remaining - k;
    var q := ChunkEnd(file, p, k, start, recordLength, fixed || left == 0 || c.bytes - left == recordLength);
    if q.None? then r == Failed(MediumError) && after.(remaining := c.remaining) == c
    else r == Bytes(file[p..p + k]) && position == q.value && 0 <= left && after == c.(remaining := left)
  }

  lemma SameChunk(file: seq<Byte>, p: int, length: nat, chunk: nat, start: int, recordLength: nat, fixed: bool,
                  c: Counts, r: Result, position: int, after: Counts)
    requires ChunkDone(file, p, length, start, recordLength, fixed, c, r, position, after)
    requires length == Min(chunk, c.bytes)
    ensures ChunkDone(file, p, chunk, start, recordLength, fixed, c, r, position, after)
    ensures fixed && r.Bytes? ==> position == start + Pad(recordLength) + META_DATA_SIZE
    ensures r.Bytes? ==> after.remaining == c.remaining - length
    ensures after.(remaining := c.remaining) == c
  {
    hide Pad;
    hide TrailerFits;
  }

  lemma RoomShrinks(file: seq<Byte>, before: int, start: int, recordLength: nat)
    requires Room(file, start + recordLength + META_DATA_SIZE, false) < Room(file, before, false)
    ensures Room(file, start + Pad(recordLength) + META_DATA_SIZE, false) < Room(file, before, false)
  {
  }

  lemma BlockStep(file: seq<Byte>, total: Option<ReadResult>, bytes: seq<Byte>, at: Place, count: nat, size: nat,
                  all: nat, info: int, c: Counts, r: Result, place: Place, after: Counts)
    requires 0 < size <= count && total.Some? && BlocksSoFar(total, bytes, ReadFixed(file, at, count, size, all, info))
    requires c.remaining == count && size <= c.bytes
    requires var f := Find(file, at, BLOCK, 0, false, Some(info));
             if !IsReadable(f) then r == Failed(StopOf(f))
             else Whole(all, f.meta.value) ==>
               var start := f.place.position - f.meta.value - META_DATA_SIZE;
               && place.location == f.place.location
               && ChunkDone(file, start, size, start, f.meta.value, true, c, r, place.position, after)
    ensures r.Failed? ==> total.value == NotRead(r.stop)
    ensures r.Bytes? ==>
              && BlocksSoFar(total, bytes + r.bytes, ReadFixed(file, place, count - size, size, all, info))
              && after == c.(remaining := count - size)
  {
    hide *;
    var f := Find(file, at, BLOCK, 0, false, Some(info));
    if IsReadable(f) {
      ReadFixedStep(file, at, count, size, all, info);
      ReadableIsFound(f);
      if Whole(all, f.meta.value) {
        var start := f.place.position - f.meta.value - META_DATA_SIZE;
        WholeChunk(file, start, size, f.meta.value, c, r, place.position, after);
        if r.Bytes? {
          BlocksGrow(total, bytes, r.bytes, ReadFixed(file, place, count - size, size, all, info));
        } else {
          NothingToCome(total, bytes, MediumError);
        }
      } else {
        NothingKnown(total, bytes);
      }
    } else {
      UnreadableEnds(file, at, count, size, all, info);
      NothingToCome(total, bytes, StopOf(f));
    }
  }

  lemma ReadableIsFound(f: Search)
    requires IsReadable(f)
    ensures f.Found?
  {
  }

  lemma UnreadableEnds(file: seq<Byte>, at: Place, count: nat, size: nat, total: nat, info: int)
    requires 0 < size <= count && !IsReadable(Find(file, at, BLOCK, 0, false, Some(info)))
    ensures ReadFixed(file, at, count, size, total, info) ==
            Some(NotRead(StopOf(Find(file, at, BLOCK, 0, false, Some(info)))))
  {
    hide Find;
  }

  lemma NothingToCome(total: Option<ReadResult>, bytes: seq<Byte>, stop: Stop)
    requires BlocksSoFar(total, bytes, Some(NotRead(stop))) && total.Some?
    ensures total.value == NotRead(stop)
  {
  }

  lemma NothingKnown(total: Option<ReadResult>, bytes: seq<Byte>)
    ensures !(BlocksSoFar(total, bytes, None) && total.Some?)
  {
  }

  lemma WholeChunk(file: seq<Byte>, start: int, size: nat, recordLength: nat, c: Counts, r: Result, position: int,
                   after: Counts)
    requires ChunkDone(file, start, size, start, recordLength, true, c, r, position, after) && size <= c.bytes
    ensures var q := ChunkEnd(file, start, size, start, recordLength, true);
            if q.None? then r == Failed(MediumError)
            else Inside(file, start, size) && r == Bytes(file[start..start + size]) && position == q.value
                 && c.remaining >= size && after == c.(remaining := c.remaining - size)
    ensures ChunkEnd(file, start, size, start, recordLength, true).Some? ==> Inside(file, start, size)
  {
    hide TrailerFits;
    hide Pad;
  }

  // The first chunk of a record of variable length
  lemma FirstDone(file: seq<Byte>, start: int, recordLength: nat, count: nat, size: nat, sili: bool, c: Counts,
                  r: Result, position: int, after: Counts)
    requires 0 < recordLength && 0 < count && 0 < size
    requires c == Adjusted(Counts(count, count, count, Min(count, size), None), recordLength, sili, size)
    requires ChunkDone(file, start, Min(count, size), start, recordLength, false, c, r, position, after)
    ensures var n := ReadLength(recordLength, count, sili);
            var k := Min(n, size);
            && c == Counts(n, n, n, k, if Incorrect(recordLength, count, sili) then Some(count - recordLength)
                           else None)
            && 0 < k <= n <= recordLength
            && (r.Bytes? ==> after == c.(remaining := n - k)
                             && PartRead(file, start, n, k, recordLength, r.bytes, position))
            && (r.Failed? ==> r.stop == MediumError && after.(remaining := n) == c
                              && !(Inside(file, start, n)
                                   && TrailerFits(file, start + Pad(recordLength), recordLength)))
  {
    var n := ReadLength(recordLength, count, sili);
    FirstPart(file, start, n, recordLength, Min(n, size));
    hide PartRead;
    hide TrailerFits;
    hide Pad;
  }

  lemma NotFoundReads(file: seq<Byte>, at: Place, count: nat, sili: bool, info: int)
    requires !IsReadable(Find(file, at, BLOCK, 0, false, Some(info)))
    ensures ReadVariable(file, at, count, sili, info) == NotRead(StopOf(Find(file, at, BLOCK, 0, false, Some(info))))
  {
    hide Find;
  }

  // What READ makes of a block: its length, its data from the place where the drive expects them, and the length
  // behind it.
  lemma BlockBytes(file: seq<Byte>, q: nat, o: TapeObject)
    requires ObjectAt(file, q, o) && o.Block?
    ensures q + o.Size() <= |file| && file[q + 4..q + 4 + |o.data|] == o.data
    ensures TrailerFits(file, q + o.Size() - 4, |o.data|)
    ensures q + o.Size() == q + 8 + Pad(|o.data|) && o.Head().value == |o.data|
  {
    DecodeEncode(o.Head());
  }

  // The four bytes one behind the beginning of a length are never that length again, if it is odd.
  lemma ShiftedLength(m: MetaData, b: seq<Byte>)
    requires m.Valid() && (m.cls == GOOD_DATA || m.cls == BAD_DATA) && m.value < 0x100_0000 && m.value % 2 == 1
    requires |b| == META_DATA_SIZE && b[..3] == ToLittleEndian(m)[1..]
    ensures FromLittleEndian(b).value != m.value
  {
    hide ToLittleEndian;
    hide FromLittleEndian;
    var w := ToLittleEndian(m);
    assert b[0] == b[..3][0] == w[1..][0] && b[1] == b[..3][1] == w[1..][1] && b[2] == b[..3][2] == w[1..][2];
    LastByte(m);
    ValueOfBytes(b);
    ValueOfLength(m);
    if FromLittleEndian(b).value == m.value {
      SameDigits(b[0], b[1], b[2], b[3] % 16, w[0], w[1], w[2]);
    }
  }

  lemma LastByte(m: MetaData)
    requires m.Valid() && m.value < 0x100_0000
    ensures ToLittleEndian(m)[3] == m.cls * 16
    ensures m.value % 2 == ToLittleEndian(m)[0] % 2
  {
  }

  lemma ValueOfBytes(b: seq<Byte>)
    requires |b| == META_DATA_SIZE
    ensures FromLittleEndian(b).value ==
            0x100_0000 * ((b[3] % 16) as nat) + 0x1_0000 * (b[2] as nat) + 256 * (b[1] as nat) + b[0] as nat
  {
    var low, high := b[3] % 16, b[3] / 16;
    SplitBytes(b[0], b[1], b[2], low);
    var v := 0x100_0000 * (low as nat) + 0x1_0000 * (b[2] as nat) + 256 * (b[1] as nat) + b[0] as nat;
    var all := 0x100_0000 * (b[3] as nat) + 0x1_0000 * (b[2] as nat) + 256 * (b[1] as nat) + b[0] as nat;
    assert all == v + VALUE_LIMIT * high;
  }

  lemma ValueOfLength(m: MetaData)
    requires m.Valid() && m.value < 0x100_0000
    ensures var w := ToLittleEndian(m);
            m.value == 0x1_0000 * (w[2] as nat) + 256 * (w[1] as nat) + w[0] as nat
  {
    JoinBytes(m.value);
  }

  lemma SameDigits(a0: Byte, a1: Byte, a2: Byte, a3: Byte, b0: Byte, b1: Byte, b2: Byte)
    requires 0x100_0000 * (a3 as nat) + 0x1_0000 * (a2 as nat) + 256 * (a1 as nat) + (a0 as nat)
          == 0x1_0000 * (b2 as nat) + 256 * (b1 as nat) + (b0 as nat)
    ensures a0 == b0 && a1 == b1 && a2 == b2 && a3 == 0
  {
  }

  // READ delivers a block of even length, or its beginning, and ends behind it. The bytes of a block of odd length
  // are looked for one byte too far, so that the lengths never agree.
  lemma ReadFoundEven(file: seq<Byte>, q: nat, o: TapeObject, l: int, count: nat, sili: bool)
    requires ObjectAt(file, q, o) && o.Block? && |o.data| % 2 == 0 && 0 < count
    ensures ReadFound(file, q + o.Size() - |o.data| - META_DATA_SIZE, |o.data|, l, count, sili) ==
            Data(o.data[..Min(count, |o.data|)],
                 if Incorrect(|o.data|, count, sili) then Some(count - |o.data|) else None, Place(q + o.Size(), l))
  {
    BlockBytes(file, q, o);
    var k := Min(count, |o.data|);
    assert ReadLength(|o.data|, count, sili) == k;
    hide ObjectAt;
    assert file[q + 4..q + 4 + k] == file[q + 4..q + 4 + |o.data|][..k];
  }

  // The bytes one behind the trailing length of a record of odd length never hold its length.
  lemma OddTrailerFails(file: seq<Byte>, q: nat, o: TapeObject)
    requires ObjectAt(file, q, o) && o.Block? && |o.data| % 2 == 1 && |o.data| < 0x100_0000
    ensures !TrailerFits(file, q + o.Size() - |o.data| - META_DATA_SIZE + Pad(|o.data|), |o.data|)
  {
    BlockBytes(file, q, o);
    var t := q + o.Size() - 4;
    assert file[t..t + 4] == ToLittleEndian(o.Head());
    hide ObjectAt;
    if t + 5 <= |file| {
      var b := file[t + 1..t + 5];
      assert b[..3] == file[t..t + 4][1..];
      ShiftedLength(o.Head(), b);
    }
  }

  lemma ReadFoundOdd(file: seq<Byte>, q: nat, o: TapeObject, l: int, count: nat, sili: bool)
    requires ObjectAt(file, q, o) && o.Block? && |o.data| % 2 == 1 && |o.data| < 0x100_0000
    ensures ReadFound(file, q + o.Size() - |o.data| - META_DATA_SIZE, |o.data|, l, count, sili) == NotRead(MediumError)
  {
    OddTrailerFails(file, q, o);
  }

  // A READ of a variable length: exactly the blocks of even length can be read.
  lemma ReadOfBlock(file: seq<Byte>, p: nat, l: int, gaps: seq<TapeObject>, o: TapeObject, count: nat, sili: bool,
                    info: int)
    requires Holds(file, p, gaps + [o]) && (forall g :: g in gaps ==> g.Gap?) && o.Block? && 0 < count
    requires |o.data| < 0x100_0000
    ensures ReadVariable(file, Place(p, l), count, sili, info) ==
            if |o.data| % 2 == 1 then NotRead(MediumError)
            else Data(o.data[..Min(count, |o.data|)],
                      if |o.data| != count && (count > |o.data| || !sili) then Some(count - |o.data|) else None,
                      Place(End(p, gaps) + o.Size(), l + 1))
  {
    hide Find;
    hide ObjectAt;
    hide ReadFound;
    ReadFinds(file, p, l, gaps, o, info);
    HoldsSplit(file, p, gaps, [o]);
    assert ObjectAt(file, End(p, gaps), o) by { assert Holds(file, End(p, gaps), [o]); }
    ObjectIsValid(file, End(p, gaps), o);
    if |o.data| % 2 == 1 {
      ReadFoundOdd(file, End(p, gaps), o, l + 1, count, sili);
    } else {
      ReadFoundEven(file, End(p, gaps), o, l + 1, count, sili);
    }
  }

  lemma ObjectIsValid(file: seq<Byte>, p: nat, o: TapeObject)
    requires ObjectAt(file, p, o)
    ensures o.Valid() && (o.Block? ==> o.Head().value == |o.data| > 0)
  {
  }

  // A READ finds a bad block, a filemark or the end of the data instead.
  lemma ReadOfOther(file: seq<Byte>, p: nat, l: int, gaps: seq<TapeObject>, o: TapeObject, info: int)
    requires Holds(file, p, gaps + [o]) && (forall g :: g in gaps ==> g.Gap?) && (o.BadBlock? || o.Filemark?)
    ensures var f := Find(file, Place(p, l), BLOCK, 0, false, Some(info));
            && !IsReadable(f) && StopOf(f) == (if o.BadBlock? then MediumError else FilemarkFound(info))
            && f.place == Place(End(p, gaps) + o.Size(), l + 1)
  {
    hide Find;
    hide ObjectAt;
    ReadFinds(file, p, l, gaps, o, info);
  }

  lemma BlocksOfOne(data: seq<Byte>)
    requires 0 < |data| < VALUE_LIMIT
    ensures BlocksOf(data, |data|) == [Block(false, data)]
  {
    assert data[..|data|] == data && data[|data|..] == [];
  }

  // A record that was written can be read again, from where it was written, exactly if its length is even.
  lemma WriteThenReadVariable(file: seq<Byte>, p: nat, l: int, data: seq<Byte>, sili: bool, info: int)
    requires 0 < |data| < 0x100_0000 && p % 2 == 0 && BytesAt(file, p, Records(p, data, |data|))
    ensures ReadVariable(file, Place(p, l), |data|, sili, info) ==
            if |data| % 2 == 1 then NotRead(MediumError)
            else Data(data, None, Place(p + |Records(p, data, |data|)|, l + 1))
  {
    hide BytesAt;
    hide ReadVariable;
    RecordsAreBlocks(file, p, data, |data|);
    BlocksOfOne(data);
    var o := Block(false, data);
    assert [] + [o] == [o] && End(p, [o]) == p + o.Size();
    hide Records;
    ReadOfBlock(file, p, l, [], o, |data|, sili, info);
    assert data[..|data|] == data;
  }

  // A READ with fixed length takes a block of its size from any record whose length divides its total, and goes on
  // behind the record: exactly if the record has the length of a block is this the record. Of a longer one the rest is
  // lost, and behind a shorter one the bytes that follow it on the tape are taken for data.
  lemma FixedReadOfBlock(file: seq<Byte>, p: nat, l: int, o: TapeObject, count: nat, size: nat, total: nat, info: int)
    requires ObjectAt(file, p, o) && o.Block? && |o.data| % 2 == 0 && 0 < size <= count && Whole(total, |o.data|)
    requires p + META_DATA_SIZE + size <= |file|
    ensures var chunk := file[p + META_DATA_SIZE..p + META_DATA_SIZE + size];
            && ReadFixed(file, Place(p, l), count, size, total, info) ==
               InFront(chunk, ReadFixed(file, Place(p + o.Size(), l + 1), count - size, size, total, info))
            && (chunk == o.data <==> size == |o.data|)
            && (size < |o.data| ==> chunk == o.data[..size])
            && (size > |o.data| ==>
                  && chunk[..|o.data|] == o.data
                  && forall i :: |o.data| <= i < size && i < |o.data| + META_DATA_SIZE ==>
                       chunk[i] == ToLittleEndian(o.Head())[i - |o.data|])
  {
    hide *;
    RecordIsFound(file, p, l, o, info);
    ChunkEndsRecord(file, p, o, size);
    ChunkOfRecord(file, p, o, size);
    ReadFixedStep(file, Place(p, l), count, size, total, info);
  }

  lemma RecordIsFound(file: seq<Byte>, p: nat, l: int, o: TapeObject, info: int)
    requires ObjectAt(file, p, o) && o.Block? && |o.data| % 2 == 0
    ensures var f := Find(file, Place(p, l), BLOCK, 0, false, Some(info));
            && IsReadable(f) && f.Found? && f.meta.value == |o.data| && f.place == Place(p + o.Size(), l + 1)
            && f.place.position - |o.data| - META_DATA_SIZE == p + META_DATA_SIZE
  {
    hide Find;
    assert Holds(file, p, [o]) && [] + [o] == [o];
    ReadFinds(file, p, l, [], o, info);
    BlockBytes(file, p, o);
    ObjectIsValid(file, p, o);
  }

  lemma ChunkEndsRecord(file: seq<Byte>, p: nat, o: TapeObject, size: nat)
    requires ObjectAt(file, p, o) && o.Block? && |o.data| % 2 == 0 && p + META_DATA_SIZE + size <= |file|
    ensures ChunkEnd(file, p + META_DATA_SIZE, size, p + META_DATA_SIZE, |o.data|, true) == Some(p + o.Size())
  {
    BlockBytes(file, p, o);
    hide ObjectAt;
    hide TrailerFits;
  }

  lemma ChunkOfRecord(file: seq<Byte>, p: nat, o: TapeObject, size: nat)
    requires ObjectAt(file, p, o) && o.Block? && |o.data| % 2 == 0 && p + META_DATA_SIZE + size <= |file|
    ensures var chunk := file[p + META_DATA_SIZE..p + META_DATA_SIZE + size];
            && (chunk == o.data <==> size == |o.data|)
            && (size < |o.data| ==> chunk == o.data[..size])
            && (size > |o.data| ==>
                  && chunk[..|o.data|] == o.data
                  && forall i :: |o.data| <= i < size && i < |o.data| + META_DATA_SIZE ==>
                       chunk[i] == ToLittleEndian(o.Head())[i - |o.data|])
  {
    hide ToLittleEndian;
    var a, n := p + META_DATA_SIZE, |o.data|;
    var chunk := file[a..a + size];
    assert file[a..a + n] == o.data;
    assert file[a + n..a + n + META_DATA_SIZE] == ToLittleEndian(o.Head());
    forall i | n <= i < size && i < n + META_DATA_SIZE
      ensures chunk[i] == ToLittleEndian(o.Head())[i - n]
    {
      assert chunk[i] == file[a + n..a + n + META_DATA_SIZE][i - n];
    }
  }

  lemma FirstBlockReads(file: seq<Byte>, p: nat, l: int, block: seq<Byte>, count: nat, total: nat, info: int)
    requires ObjectAt(file, p, Block(false, block)) && |block| <= count && |block| % 2 == 0 && Whole(total, |block|)
    ensures var size := |block|;
            var q := p + Block(false, block).Size();
            0 < size && ReadFixed(file, Place(p, l), count, size, total, info) ==
            InFront(block, ReadFixed(file, Place(q, l + 1), count - size, size, total, info))
  {
    hide ReadFixed;
    var o := Block(false, block);
    BlockBytes(file, p, o);
    ObjectIsValid(file, p, o);
    FixedReadOfBlock(file, p, l, o, count, |block|, total, info);
  }

  lemma {:induction false} ReadOfBlocks(file: seq<Byte>, p: nat, l: int, data: seq<Byte>, size: nat, total: nat,
                                        info: int)
    requires 0 < size < VALUE_LIMIT && size % 2 == 0 && Whole(|data|, size) && Holds(file, p, BlocksOf(data, size))
    requires Whole(total, size)
    ensures ReadFixed(file, Place(p, l), |data|, size, total, info) ==
            Some(Data(data, None, Place(End(p, BlocksOf(data, size)), l + |BlocksOf(data, size)|)))
    decreases |data|
  {
    hide *;
    NoBlocksRead(file, p, l, size, total, info);
    if data != [] {
      WholeBlock(|data|, size, true);
      var block, rest := data[..size], data[size..];
      var o := Block(false, block);
      FirstRecord(p, data, size);
      HoldsCons(file, p, o, BlocksOf(rest, size));
      FirstBlockReads(file, p, l, block, |data|, total, info);
      ReadOfBlocks(file, p + o.Size(), l + 1, rest, size, total, info);
      BlockInFront(file, block, rest, Place(End(p + o.Size(), BlocksOf(rest, size)), l + 1 + |BlocksOf(rest, size)|));
      assert block + rest == data;
    }
  }

  lemma NoBlocksRead(file: seq<Byte>, p: nat, l: int, size: nat, total: nat, info: int)
    requires 0 < size < VALUE_LIMIT
    ensures ReadFixed(file, Place(p, l), 0, size, total, info) ==
            Some(Data([], None, Place(End(p, BlocksOf([], size)), l + |BlocksOf([], size)|)))
  {
  }

  lemma BlockInFront(file: seq<Byte>, block: seq<Byte>, rest: seq<Byte>, place: Place)
    ensures InFront(block, Some(Data(rest, None, place))) == Some(Data(block + rest, None, place))
  {
  }

  // Blocks of fixed length that were written can be read again from where they were written.
  lemma WriteThenReadFixed(file: seq<Byte>, p: nat, l: int, data: seq<Byte>, size: nat, info: int)
    requires 0 < size < VALUE_LIMIT && size % 2 == 0 && Whole(|data|, size) && p % 2 == 0
    requires BytesAt(file, p, Records(p, data, size))
    ensures ReadFixed(file, Place(p, l), |data|, size, |data|, info) ==
            Some(Data(data, None, Place(p + |Records(p, data, size)|, l + |BlocksOf(data, size)|)))
  {
    hide BytesAt;
    hide Records;
    hide ReadFixed;
    hide Whole;
    RecordsAreBlocks(file, p, data, size);
    ReadOfBlocks(file, p, l, data, size, |data|, info);
  }

  lemma OverwriteHolds(f: seq<Byte>, p: nat, d: seq<Byte>, e: seq<Byte>)
    requires d != []
    ensures BytesAt(Overwrite(f, p, d + e), p, d)
  {
    hide Overwrite;
    BytesSplit(Overwrite(f, p, d + e), p, d, e);
  }

  lemma WholeShows(n: nat, size: nat)
    requires 0 < size
    ensures Whole(n, size) <==> n % size == 0
  {
  }

  lemma SomeRecords(at: nat, data: seq<Byte>, n: nat)
    requires 0 < n < VALUE_LIMIT && data != []
    ensures Records(at, data, n) != []
  {
  }

  // The position is behind some objects of the tape, and the object location is their number.
  predicate OnTape(file: seq<Byte>, objs: seq<TapeObject>, at: Place) {
    Holds(file, 0, objs) && at == Place(End(0, objs), CountedObjects(objs))
  }

  // Moving over further objects, as spacing, locating and reading do, keeps the object location right.
  lemma MovingStaysOnTape(file: seq<Byte>, objs: seq<TapeObject>, at: Place, more: seq<TapeObject>)
    requires OnTape(file, objs, at) && Holds(file, at.position, more)
    ensures OnTape(file, objs + more, Place(End(at.position, more), at.location + CountedObjects(more)))
  {
    hide Holds;
    HoldsSplit(file, 0, objs, more);
  }

  lemma {:induction false} HoldsElsewhere(f: seq<Byte>, g: seq<Byte>, p: nat, objs: seq<TapeObject>)
    requires Holds(f, p, objs) && |g| >= End(p, objs) && forall i :: 0 <= i < End(p, objs) && i < |f| ==> g[i] == f[i]
    ensures Holds(g, p, objs)
    decreases |objs|
  {
    if objs != [] {
      ObjectElsewhere(f, g, p, objs[0], End(p, objs));
      HoldsElsewhere(f, g, p + objs[0].Size(), objs[1..]);
    }
  }

  lemma ObjectElsewhere(f: seq<Byte>, g: seq<Byte>, p: nat, o: TapeObject, end: int)
    requires ObjectAt(f, p, o) && p + o.Size() <= end <= |g| && forall i :: 0 <= i < end && i < |f| ==> g[i] == f[i]
    ensures ObjectAt(g, p, o)
  {
    assert g[p..p + 4] == f[p..p + 4];
    if o.Block? {
      var t := p + o.Size() - META_DATA_SIZE;
      assert g[t..t + 4] == f[t..t + 4];
      assert g[p + 4..p + 4 + |o.data|] == f[p + 4..p + 4 + |o.data|];
    }
  }

  lemma {:induction false} EndInside(file: seq<Byte>, p: nat, objs: seq<TapeObject>)
    requires Holds(file, p, objs) && p <= |file| && p % 2 == 0
    ensures End(p, objs) <= |file| && End(p, objs) % 2 == 0
    decreases |objs|
  {
    hide ObjectAt;
    hide TapeObject.Size;
    if objs != [] {
      ObjectInside(file, p, objs[0]);
      EndInside(file, p + objs[0].Size(), objs[1..]);
    }
  }

  lemma ObjectInside(file: seq<Byte>, p: nat, o: TapeObject)
    requires ObjectAt(file, p, o)
    ensures p + o.Size() <= |file| && o.Size() % 2 == 0
  {
  }

  lemma {:induction false} BlocksAreCounted(data: seq<Byte>, n: nat)
    requires 0 < n < VALUE_LIMIT
    ensures CountedObjects(BlocksOf(data, n)) == |BlocksOf(data, n)|
    decreases |data|
  {
    if data != [] {
      var k := Min(n, |data|);
      BlocksAreCounted(data[k..], n);
      assert BlocksOf(data, n)[1..] == BlocksOf(data[k..], n);
    }
  }

  // Writing blocks behind some objects of the tape adds them to the tape and keeps the object location right.
  lemma WritingStaysOnTape(file: seq<Byte>, objs: seq<TapeObject>, at: Place, data: seq<Byte>, n: nat, e: seq<Byte>)
    requires OnTape(file, objs, at) && 0 < n < VALUE_LIMIT && data != []
    ensures var r := Records(at.position, data, n);
            OnTape(Overwrite(file, at.position, r + e), objs + BlocksOf(data, n),
                   Place(at.position + |r|, at.location + |BlocksOf(data, n)|))
  {
    hide Holds;
    hide Records;
    hide Overwrite;
    var p: nat := at.position;
    EndInside(file, 0, objs);
    SomeRecords(p, data, n);
    var r := Records(p, data, n);
    var g := Overwrite(file, p, r + e);
    HoldsElsewhere(file, g, 0, objs);
    OverwriteHolds(file, p, r, e);
    RecordsAreBlocks(g, p, data, n);
    BlocksAreCounted(data, n);
    MovingStaysOnTape(g, objs, at, BlocksOf(data, n));
  }
}
