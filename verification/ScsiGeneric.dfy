// Block transfers of the SCSI generic device: a long transfer is split into commands of at most 64 KiB.
module ScsiGenerics {
  import opened Basics
  import opened FlatImage
  import Requests

  const MAX_TRANSFER_LENGTH: nat := 65536
  const LIMIT32: nat := 0x1_0000_0000
  const LIMIT31: nat := 0x8000_0000

  // Where a command has its block count and its start block.
  datatype Fields = Fields(countOffset: nat, countSize: nat, blockOffset: nat, blockSize: nat, dataOut: bool)

  // READ and WRITE, with 10, 12 and 16 bytes
  function FieldsOf(opcode: Byte): Option<Fields> {
    if opcode == 0x28 then Some(Fields(7, 2, 2, 4, false))
    else if opcode == 0x2a then Some(Fields(7, 2, 2, 4, true))
    else if opcode == 0xa8 then Some(Fields(6, 4, 2, 4, false))
    else if opcode == 0xaa then Some(Fields(6, 4, 2, 4, true))
    else if opcode == 0x88 then Some(Fields(10, 4, 2, 8, false))
    else if opcode == 0x8a then Some(Fields(10, 4, 2, 8, true))
    else None
  }

  function LengthOf(opcode: Byte): nat {
    if opcode in {0x28, 0x2a} then 10 else if opcode in {0xa8, 0xaa} then 12 else 16
  }

  function Power(n: nat): (p: nat)
    ensures p > 0
  {
    if n == 0 then 1 else 256 * Power(n - 1)
  }

  // A number of n bytes, most significant byte first
  function GetInt(cdb: seq<Byte>, offset: nat, n: nat): nat
    requires offset + n <= |cdb|
  {
    if n == 0 then 0 else 256 * GetInt(cdb, offset, n - 1) + cdb[offset + n - 1] as nat
  }

  function SetInt(cdb: seq<Byte>, offset: nat, n: nat, v: nat): (r: seq<Byte>)
    requires offset + n <= |cdb|
    ensures |r| == |cdb|
    ensures forall i :: 0 <= i < |cdb| && !(offset <= i < offset + n) ==> r[i] == cdb[i]
    decreases n
  {
    if n == 0 then cdb else SetInt(cdb[offset + n - 1 := v % 256], offset, n - 1, v / 256)
  }

  lemma {:induction false} GetElsewhere(a: seq<Byte>, b: seq<Byte>, offset: nat, n: nat)
    requires offset + n <= |a| && offset + n <= |b| && forall i :: offset <= i < offset + n ==> a[i] == b[i]
    ensures GetInt(a, offset, n) == GetInt(b, offset, n)
    decreases n
  {
    if n > 0 {
      GetElsewhere(a, b, offset, n - 1);
    }
  }

  // A number that fits reads back.
  lemma {:induction false} GetOfSet(cdb: seq<Byte>, offset: nat, n: nat, v: nat)
    requires offset + n <= |cdb| && v < Power(n)
    ensures GetInt(SetInt(cdb, offset, n, v), offset, n) == v
    decreases n
  {
    if n > 0 {
      var last := cdb[offset + n - 1 := v % 256];
      GetOfSet(last, offset, n - 1, v / 256);
      assert SetInt(last, offset, n - 1, v / 256)[offset + n - 1] == v % 256;
    }
  }

  // The ranges of the issued commands
  datatype Range = Range(start: nat, count: nat)

  // The ranges follow each other from start on and hold count blocks together.
  predicate Tiles(log: seq<Range>, start: nat, count: nat)
    decreases |log|
  {
    if log == [] then count == 0
    else
      && log[0].start == start && 0 < log[0].count <= count
      && Tiles(log[1..], start + log[0].count, count - log[0].count)
  }

  lemma {:induction false} TilesGrow(log: seq<Range>, start: nat, count: nat, k: nat)
    requires Tiles(log, start, count) && 0 < k
    ensures Tiles(log + [Range(start + count, k)], start, count + k)
    decreases |log|
  {
    var all := log + [Range(start + count, k)];
    if log != [] {
      TilesGrow(log[1..], start + log[0].count, count - log[0].count, k);
      assert all[1..] == log[1..] + [Range(start + count, k)];
    }
  }

  lemma {:induction false} TilesAreUnique(log: seq<Range>, start: nat, a: nat, b: nat)
    requires Tiles(log, start, a) && Tiles(log, start, b)
    ensures a == b
    decreases |log|
  {
    if log != [] {
      TilesAreUnique(log[1..], start + log[0].count, a - log[0].count, b - log[0].count);
    }
  }

  // What a command does with the memory of a device: write data to blocks or deliver their content.
  predicate Moved(before: seq<Byte>, after: seq<Byte>, write: bool, data: seq<Byte>, value: seq<Byte>,
                  start: nat, count: nat, size: nat) {
    && start * size + count * size <= |before|
    && if write then |data| == count * size && value == [] && after == WriteAt(before, start * size, data)
       else after == before && value == before[start * size..start * size + count * size]
  }

  // What a device takes a command for: the READ and WRITE commands of ten, twelve and sixteen bytes
  datatype Command = Command(write: bool, start: nat, count: nat)

  // Bytes as a number, most significant byte first
  function Number(b: seq<Byte>): nat {
    if b == [] then 0 else 256 * Number(b[..|b| - 1]) + b[|b| - 1] as nat
  }

  function Decoded(cdb: seq<Byte>): Option<Command> {
    if |cdb| == 10 && cdb[0] in {0x28, 0x2a} then
      Some(Command(cdb[0] == 0x2a, Number(cdb[2..6]), Number(cdb[7..9])))
    else if |cdb| == 12 && cdb[0] in {0xa8, 0xaa} then
      Some(Command(cdb[0] == 0xaa, Number(cdb[2..6]), Number(cdb[6..10])))
    else if |cdb| == 16 && cdb[0] in {0x88, 0x8a} then
      Some(Command(cdb[0] == 0x8a, Number(cdb[2..10]), Number(cdb[10..14])))
    else None
  }

  // The device behind the SG driver
  class Device {
    const blockSize: nat
    var memory: seq<Byte>
    ghost var issued: seq<Range>    // the ranges of the commands that have moved blocks
    ghost var failures: nat

    constructor (size: nat, bytes: seq<Byte>)
      ensures blockSize == size && memory == bytes && issued == [] && failures == 0
    {
      blockSize, memory, issued, failures := size, bytes, [], 0;
    }

    // The device may fail, but never with a residual. The driver refuses transfers that are too long.
    method Execute(cdb: seq<Byte>, length: nat, data: seq<Byte>) returns (r: Option<seq<Byte>>)
      modifies this
      ensures failures == old(failures) + if r.Some? then 0 else 1
      ensures r.None? ==> memory == old(memory) && issued == old(issued)
      ensures r.Some? ==>
                && length <= MAX_TRANSFER_LENGTH && Decoded(cdb).Some?
                && var c := Decoded(cdb).value;
                   && issued == old(issued) + (if c.count == 0 then [] else [Range(c.start, c.count)])
                   && c.count * blockSize == length
                   && Moved(old(memory), memory, c.write, data, r.value, c.start, c.count, blockSize)
    {
      var fails: bool := *;
      var d := Decoded(cdb);
      if fails || length > MAX_TRANSFER_LENGTH || d.None? {
        failures := failures + 1;
        return None;
      }
      var c := d.value;
      var from, n := c.start * blockSize, c.count * blockSize;
      if n != length || from + n > |memory| || (c.write && |data| != n) {
        failures := failures + 1;
        return None;
      }
      issued := issued + if c.count == 0 then [] else [Range(c.start, c.count)];
      if c.write {
        memory := WriteAt(memory, from, data);
        return Some([]);
      }
      return Some(memory[from..from + n]);
    }
  }

  lemma {:induction false} NumberIsInt(cdb: seq<Byte>, offset: nat, n: nat)
    requires offset + n <= |cdb|
    ensures GetInt(cdb, offset, n) == Number(cdb[offset..offset + n])
    decreases n
  {
    if n > 0 {
      NumberIsInt(cdb, offset, n - 1);
      assert cdb[offset..offset + n][..n - 1] == cdb[offset..offset + n - 1];
    }
  }

  // The fields of a command are where the device looks for them.
  lemma FieldsAreDecoded(cdb: seq<Byte>)
    requires cdb != [] && FieldsOf(cdb[0]).Some? && |cdb| == LengthOf(cdb[0])
    ensures var f := FieldsOf(cdb[0]).value;
            Decoded(cdb) == Some(Command(f.dataOut, GetInt(cdb, f.blockOffset, f.blockSize),
                                         GetInt(cdb, f.countOffset, f.countSize)))
  {
    var f := FieldsOf(cdb[0]).value;
    NumberIsInt(cdb, f.blockOffset, f.blockSize);
    NumberIsInt(cdb, f.countOffset, f.countSize);
    hide GetInt;
    hide Number;
  }

  lemma MultipleInOrder(a: nat, b: nat, size: nat)
    requires 0 < size
    ensures a * size <= b * size <==> a <= b
    ensures a * size == b * size <==> a == b
  {
    if a < b {
      SectorsInOrder(size, a, b);
    } else if b < a {
      SectorsInOrder(size, b, a);
    }
  }

  lemma QuotientOfMultiple(n: nat, size: nat)
    requires 0 < size
    ensures n * size / size == n
  {
    var x := n * size / size;
    assert n * size == x * size + n * size % size;
    if x < n {
      SectorsInOrder(size, x, n);
    }
    MultipleInOrder(x, n, size);
  }

  // The next command of a transfer with m blocks left, when a full one has q blocks
  lemma ChunkBlocks(m: nat, q: nat, size: nat)
    requires 0 < size && q * size == MAX_TRANSFER_LENGTH
    ensures var n := Min(m, q);
            Min(m * size, MAX_TRANSFER_LENGTH) == n * size && n * size / size == n && (m > 0 ==> n > 0)
            && m * size - n * size == (m - n) * size
  {
    MultipleInOrder(m, q, size);
    QuotientOfMultiple(Min(m, q), size);
  }

  // READ(6) and WRITE(6) as the ten byte command that replaces them
  function Converted(cdb: seq<Byte>): (r: seq<Byte>)
    requires |cdb| == 6
    ensures |r| == 10
  {
    var ten := cdb + [0, 0, cdb[4], cdb[5]];
    SetInt(ten, 2, 4, GetInt(ten, 1, 3))[1 := 0][0 := if cdb[0] == 0x0a then 0x2a else 0x28]
  }

  lemma PowerGrows(n: nat)
    ensures Power(n) < Power(n + 1)
  {
  }

  lemma {:induction false} GetIsBounded(cdb: seq<Byte>, offset: nat, n: nat)
    requires offset + n <= |cdb|
    ensures GetInt(cdb, offset, n) < Power(n)
    decreases n
  {
    if n > 0 {
      GetIsBounded(cdb, offset, n - 1);
    }
  }

  // The blocks that a six byte command asks for
  function CountOfSix(cdb: seq<Byte>): nat
    requires |cdb| == 6
  {
    if cdb[4] == 0 then 256 else cdb[4]
  }

  // The replacement has the same start and direction, and asks for the same blocks exactly if the count is not 0: a
  // READ(6) with count 0 asks for 256 blocks, the READ(10) that replaces it for none.
  lemma ConvertedIsSame(cdb: seq<Byte>)
    requires |cdb| == 6 && cdb[0] in {0x08, 0x0a}
    ensures var r := Converted(cdb);
            && GetInt(r, 2, 4) == GetInt(cdb, 1, 3) && GetInt(r, 7, 2) == cdb[4] as nat && r[9] == cdb[5]
            && FieldsOf(r[0]).Some? && FieldsOf(r[0]).value.dataOut == (cdb[0] == 0x0a)
            && (GetInt(r, 7, 2) == CountOfSix(cdb) <==> cdb[4] != 0)
  {
    var ten := cdb + [0, 0, cdb[4], cdb[5]];
    var v := GetInt(ten, 1, 3);
    GetElsewhere(cdb, ten, 1, 3);
    GetIsBounded(ten, 1, 3);
    PowerGrows(3);
    GetOfSet(ten, 2, 4, v);
    GetElsewhere(SetInt(ten, 2, 4, v), Converted(cdb), 2, 4);
    assert Converted(cdb)[7] == 0 && Converted(cdb)[8] == cdb[4];
    assert GetInt(Converted(cdb), 7, 1) == 0 by { assert GetInt(Converted(cdb), 7, 0) == 0; }
  }

  lemma ReadGrows(memory: seq<Byte>, data: seq<Byte>, chunk: seq<Byte>, start: nat, done: nat, n: nat, size: nat)
    requires done == 0 ==> data == []
    requires done > 0 ==> Moved(memory, memory, false, [], data, start, done, size)
    requires Moved(memory, memory, false, [], chunk, start + done, n, size)
    ensures Moved(memory, memory, false, [], data + chunk, start, done + n, size)
  {
    assert (start + done) * size == start * size + done * size && (done + n) * size == done * size + n * size;
    var x, y, z := start * size, (start + done) * size, start * size + (done + n) * size;
    assert memory[x..y] + memory[y..z] == memory[x..z];
    if done == 0 {
      assert data + chunk == chunk;
    }
  }

  class ScsiGeneric {
    const device: Device
    var localCdb: seq<Byte>
    var byteCount: int
    var remainingCount: int

    constructor (d: Device)
      ensures device == d
    {
      device, localCdb, byteCount, remainingCount := d, [], 0, 0;
    }

    predicate HasFields()
      reads this`localCdb
    {
      localCdb != [] && FieldsOf(localCdb[0]).Some? && |localCdb| == LengthOf(localCdb[0])
    }

    function Fields(): Fields
      requires HasFields()
      reads this`localCdb
    {
      FieldsOf(localCdb[0]).value
    }

    function StartBlock(): nat
      requires HasFields()
      reads this`localCdb
    {
      GetInt(localCdb, Fields().blockOffset, Fields().blockSize)
    }

    function BlockCount(): nat
      requires HasFields()
      reads this`localCdb
    {
      GetInt(localCdb, Fields().countOffset, Fields().countSize)
    }

    method SetBlockCount(n: nat)
      requires HasFields() && n < Power(Fields().countSize)
      modifies this`localCdb
      ensures HasFields() && Fields() == old(Fields()) && StartBlock() == old(StartBlock()) && BlockCount() == n
    {
      var f := Fields();
      ghost var before := localCdb;
      localCdb := SetInt(localCdb, f.countOffset, f.countSize, n);
      GetOfSet(before, f.countOffset, f.countSize, n);
      GetElsewhere(before, localCdb, f.blockOffset, f.blockSize);
    }

    method UpdateStartBlock(n: nat)
      requires HasFields()
      modifies this`localCdb
      ensures HasFields() && Fields() == old(Fields())
      ensures old(StartBlock()) + n < Power(Fields().blockSize) ==> StartBlock() == old(StartBlock()) + n
    {
      var f := Fields();
      ghost var before := localCdb;
      var v := StartBlock() + n;
      localCdb := SetInt(localCdb, f.blockOffset, f.blockSize, v);
      if v < Power(f.blockSize) {
        GetOfSet(before, f.blockOffset, f.blockSize, v);
      }
    }

    // Where a transfer is: done of count blocks from start on have been moved.
    ghost predicate Splitting(f: Fields, start: nat, count: nat, done: nat)
      reads this`localCdb, this`remainingCount
    {
      && HasFields() && Fields() == f && 0 < device.blockSize && MAX_TRANSFER_LENGTH % device.blockSize == 0
      && done <= count < Power(f.countSize) && start + count <= Power(f.blockSize)
      && remainingCount == (count - done) * device.blockSize
      && (done == 0 || done < count ==> StartBlock() == start + done)
    }

    // ReadWriteData with the chunk that the controller provides or has room for
    method ReadWriteData(data: seq<Byte>, size: nat, ghost f: Fields, ghost start: nat, ghost count: nat,
                         ghost done: nat)
      returns (r: Option<seq<Byte>>, ghost n: nat)
      requires Splitting(f, start, count, done) && (done == 0 || done < count)
      requires size == Min(remainingCount, MAX_TRANSFER_LENGTH) && (f.dataOut ==> |data| == size)
      modifies this`localCdb, this`remainingCount, device
      ensures device.failures == old(device.failures) + if r.Some? then 0 else 1
      ensures n <= count - done && (done < count ==> 0 < n) && n * device.blockSize == size
      ensures n == Min(count - done, 65536 / device.blockSize)
      ensures r.None? ==> device.memory == old(device.memory) && device.issued == old(device.issued)
      ensures r.Some? ==>
                && Splitting(f, start, count, done + n)
                && device.issued == old(device.issued) + (if n == 0 then [] else [Range(start + done, n)])
                && Moved(old(device.memory), device.memory, f.dataOut, data, r.value, start + done, n, device.blockSize)
    {
      var length := Min(Min(remainingCount, size), MAX_TRANSFER_LENGTH);
      ghost var q := MAX_TRANSFER_LENGTH / device.blockSize;
      ChunkBlocks(count - done, q, device.blockSize);
      n := Min(count - done, q);
      GetIsBounded(localCdb, f.blockOffset, f.blockSize);
      SetBlockCount(length / device.blockSize);
      FieldsAreDecoded(localCdb);
      r := device.Execute(localCdb, length, data);
      if r.Some? {
        UpdateStartBlock(length / device.blockSize);
        remainingCount := remainingCount - length;
      }
    }

    // The chunks of a READ. The first one is fetched in any case.
    method TransferIn(ghost f: Fields, ghost start: nat, ghost count: nat)
      returns (r: Option<seq<Byte>>, ghost done: nat)
      requires Splitting(f, start, count, 0) && !f.dataOut
      modifies this`localCdb, this`remainingCount, device
      ensures device.failures >= old(device.failures) && (device.failures == old(device.failures) ==> r.Some?)
      ensures device.memory == old(device.memory)
      ensures done <= count && IssuedSince(old(device.issued), device.issued, start, done)
      ensures r.Some? ==>
                done == count && Moved(device.memory, device.memory, false, [], r.value, start, count, device.blockSize)
      ensures r.Some? ==> InFullParts(old(device.issued), device.issued, count, device.blockSize)
    {
      hide Moved;
      hide IssuedSince;
      hide PartsDone;
      hide InFullParts;
      ghost var base := device.issued;
      done := 0;
      var data, more := [], true;
      NothingIssued(base, start);
      PartsBegin(base, count, device.blockSize);
      LeftBlocks(count, 0, device.blockSize);
      while more
        invariant Splitting(f, start, count, done) && device.failures == old(device.failures)
        invariant device.memory == old(device.memory)
        invariant more ==> done == 0 || done < count
        invariant !more ==> done == count
        invariant more && done == 0 ==> data == []
        invariant !more || done > 0 ==> Moved(device.memory, device.memory, false, [], data, start, done,
                                              device.blockSize)
        invariant IssuedSince(base, device.issued, start, done)
        invariant PartsDone(base, device.issued, count, done, device.blockSize)
        decreases more, count - done
      {
        LeftBlocks(count, done, device.blockSize);
        var size := Min(remainingCount, MAX_TRANSFER_LENGTH);
        ghost var log := device.issued;
        ghost var n;
        var c;
        c, n := ReadWriteData([], size, f, start, count, done);
        if c.None? {
          return None, done;
        }
        ReadGrows(device.memory, data, c.value, start, done, n, device.blockSize);
        if n > 0 {
          IssuedGrows(base, log, start, done, n);
          PartsGoOn(base, log, Range(start + done, n), count, done, n, device.blockSize);
        } else {
          assert device.issued == log;
        }
        LeftBlocks(count, done + n, device.blockSize);
        data := data + c.value;
        done := done + n;
        more := remainingCount > 0;
      }
      AllPartsDone(base, device.issued, count, device.blockSize);
      r := Some(data);
    }

    // The chunks of a WRITE. A failure leaves the blocks written before it.
    method TransferOut(data: seq<Byte>, ghost f: Fields, ghost start: nat, ghost count: nat)
      returns (ok: bool, ghost done: nat)
      requires Splitting(f, start, count, 0) && f.dataOut && |data| == remainingCount
      modifies this`localCdb, this`remainingCount, device
      ensures device.failures >= old(device.failures) && (device.failures == old(device.failures) ==> ok)
      ensures done <= count && (ok ==> done == count) && IssuedSince(old(device.issued), device.issued, start, done)
      ensures Written(old(device.memory), device.memory, data, start, done, device.blockSize)
      ensures ok ==> InFullParts(old(device.issued), device.issued, count, device.blockSize)
    {
      hide Moved;
      hide IssuedSince;
      hide Written;
      hide PartsDone;
      hide InFullParts;
      ghost var base, before := device.issued, device.memory;
      done := 0;
      NothingIssued(base, start);
      NothingWritten(before, data, start, device.blockSize);
      PartsBegin(base, count, device.blockSize);
      LeftBlocks(count, 0, device.blockSize);
      while remainingCount > 0
        invariant Splitting(f, start, count, done) && device.failures == old(device.failures)
        invariant remainingCount > 0 <==> done < count
        invariant remainingCount <= |data| == count * device.blockSize
        invariant Written(before, device.memory, data, start, done, device.blockSize)
        invariant IssuedSince(base, device.issued, start, done)
        invariant PartsDone(base, device.issued, count, done, device.blockSize)
      {
        var size := Min(remainingCount, MAX_TRANSFER_LENGTH);
        var at := |data| - remainingCount;
        ghost var log, memory := device.issued, device.memory;
        ghost var n;
        var c;
        c, n := ReadWriteData(data[at..at + size], size, f, start, count, done);
        if c.None? {
          return false, done;
        }
        DoneBytes(count, done, n, device.blockSize);
        WriteGrows(before, memory, device.memory, data, data[at..at + size], start, done, n, device.blockSize);
        IssuedGrows(base, log, start, done, n);
        PartsGoOn(base, log, Range(start + done, n), count, done, n, device.blockSize);
        LeftBlocks(count, done + n, device.blockSize);
        done := done + n;
      }
      AllPartsDone(base, device.issued, count, device.blockSize);
      ok := true;
    }

    // Dispatch of READ and WRITE: the byte count is a signed number of 32 bits.
    method Dispatch(cdb: seq<Byte>)
      requires IsBlockTransfer(cdb) && 0 < device.blockSize && MAX_TRANSFER_LENGTH % device.blockSize == 0
      requires StartOfCdb(cdb) + CountOfCdb(cdb) <= Power(FieldsOfCdb(cdb).blockSize)
      modifies this
      ensures HasFields() && Fields() == FieldsOfCdb(cdb)
      ensures remainingCount == ByteCount(CountOfCdb(cdb), device.blockSize)
      ensures remainingCount >= 0 ==>
                Splitting(FieldsOfCdb(cdb), StartOfCdb(cdb), BlocksMoved(CountOfCdb(cdb), device.blockSize), 0)
    {
      // READ and WRITE(6) become the ten byte commands
      localCdb := if |cdb| == 6 then Converted(cdb) else cdb;
      if |cdb| == 6 {
        ConvertedIsSame(cdb);
      }
      GetIsBounded(localCdb, Fields().countOffset, Fields().countSize);
      byteCount := BlockCount() * device.blockSize % LIMIT32;
      if byteCount >= LIMIT31 {
        byteCount := byteCount - LIMIT32;
      }
      remainingCount := byteCount;
      ByteCountIsTruncated(BlockCount(), device.blockSize);
    }

    // A READ. Its sub-commands tile the range it asks for, and its data are those of one unsplit READ, exactly if its
    // byte count is less than 2 GiB and it is not a READ(6) with count 0. Otherwise a part of the range is moved at
    // most: a negative count goes to the driver as it is, and the driver refuses it.
    method Read(cdb: seq<Byte>) returns (r: Option<seq<Byte>>)
      requires IsBlockTransfer(cdb) && 0 < device.blockSize && MAX_TRANSFER_LENGTH % device.blockSize == 0
      requires StartOfCdb(cdb) + CountOfCdb(cdb) <= Power(FieldsOfCdb(cdb).blockSize) && !FieldsOfCdb(cdb).dataOut
      modifies this, device
      ensures device.memory == old(device.memory)
      ensures r.Some? ==>
                && IssuedSince(old(device.issued), device.issued, StartOfCdb(cdb),
                               BlocksMoved(CountOfCdb(cdb), device.blockSize))
                && Moved(device.memory, device.memory, false, [], r.value, StartOfCdb(cdb),
                         BlocksMoved(CountOfCdb(cdb), device.blockSize), device.blockSize)
      ensures IsWhole(cdb, device.blockSize) ==>
                && device.failures >= old(device.failures) && (device.failures == old(device.failures) ==> r.Some?)
      ensures r.Some? && IsWhole(cdb, device.blockSize) ==>
                && IssuedSince(old(device.issued), device.issued, StartOfCdb(cdb), AskedCount(cdb))
                && Moved(device.memory, device.memory, false, [], r.value, StartOfCdb(cdb), AskedCount(cdb),
                         device.blockSize)
                && InFullParts(old(device.issued), device.issued, AskedCount(cdb), device.blockSize)
      ensures !IsWhole(cdb, device.blockSize) ==>
                !IssuedSince(old(device.issued), device.issued, StartOfCdb(cdb), AskedCount(cdb))
    {
      hide Moved;
      hide IssuedSince;
      hide IsWhole;
      WholeIsAsked(cdb, device.blockSize);
      ghost var base, done := device.issued, 0;
      r, done := ReadParts(cdb);
      if !IsWhole(cdb, device.blockSize) {
        PartIsNotWhole(base, device.issued, StartOfCdb(cdb), done, AskedCount(cdb));
      }
    }

    method ReadParts(cdb: seq<Byte>) returns (r: Option<seq<Byte>>, ghost done: nat)
      requires IsBlockTransfer(cdb) && 0 < device.blockSize && MAX_TRANSFER_LENGTH % device.blockSize == 0
      requires StartOfCdb(cdb) + CountOfCdb(cdb) <= Power(FieldsOfCdb(cdb).blockSize) && !FieldsOfCdb(cdb).dataOut
      modifies this, device
      ensures device.memory == old(device.memory) && device.failures >= old(device.failures)
      ensures ByteCount(CountOfCdb(cdb), device.blockSize) >= 0 && device.failures == old(device.failures) ==> r.Some?
      ensures done <= BlocksMoved(CountOfCdb(cdb), device.blockSize)
      ensures IssuedSince(old(device.issued), device.issued, StartOfCdb(cdb), done)
      ensures r.Some? ==>
                && done == BlocksMoved(CountOfCdb(cdb), device.blockSize)
                && Moved(device.memory, device.memory, false, [], r.value, StartOfCdb(cdb), done, device.blockSize)
                && InFullParts(old(device.issued), device.issued, done, device.blockSize)
    {
      hide InFullParts;
      hide Moved;
      hide IssuedSince;
      hide IsBlockTransfer;
      Dispatch(cdb);
      done := 0;
      if remainingCount < 0 {
        NothingIssued(device.issued, StartOfCdb(cdb));
        NegativeIsTooLong(CountOfCdb(cdb), device.blockSize);
        r := device.Execute(localCdb, remainingCount + LIMIT32, []);
      } else {
        r, done := TransferIn(FieldsOfCdb(cdb), StartOfCdb(cdb), BlocksMoved(CountOfCdb(cdb), device.blockSize));
      }
    }

    // A WRITE, with the data that its byte count asks for. A failure leaves the blocks written before it; a negative
    // count ends in the data phase without any sub-command.
    method Write(cdb: seq<Byte>, data: seq<Byte>) returns (ok: bool)
      requires IsBlockTransfer(cdb) && 0 < device.blockSize && MAX_TRANSFER_LENGTH % device.blockSize == 0
      requires StartOfCdb(cdb) + CountOfCdb(cdb) <= Power(FieldsOfCdb(cdb).blockSize) && FieldsOfCdb(cdb).dataOut
      requires var n := ByteCount(CountOfCdb(cdb), device.blockSize); n >= 0 ==> |data| == n
      modifies this, device
      ensures IsWhole(cdb, device.blockSize) ==>
                && device.failures >= old(device.failures) && (device.failures == old(device.failures) ==> ok)
      ensures exists done: nat ::
                && done <= BlocksMoved(CountOfCdb(cdb), device.blockSize)
                && (ok ==> done == BlocksMoved(CountOfCdb(cdb), device.blockSize))
                && IssuedSince(old(device.issued), device.issued, StartOfCdb(cdb), done)
                && Written(old(device.memory), device.memory, data, StartOfCdb(cdb), done, device.blockSize)
      ensures ok && IsWhole(cdb, device.blockSize) ==>
                && IssuedSince(old(device.issued), device.issued, StartOfCdb(cdb), AskedCount(cdb))
                && Written(old(device.memory), device.memory, data, StartOfCdb(cdb), AskedCount(cdb), device.blockSize)
                && InFullParts(old(device.issued), device.issued, AskedCount(cdb), device.blockSize)
      ensures !IsWhole(cdb, device.blockSize) ==>
                !IssuedSince(old(device.issued), device.issued, StartOfCdb(cdb), AskedCount(cdb))
    {
      hide Moved;
      hide IssuedSince;
      hide Written;
      ghost var base, before, start, count := device.issued, device.memory, StartOfCdb(cdb), CountOfCdb(cdb);
      ghost var moved, done := BlocksMoved(count, device.blockSize), 0;
      WholeIsAsked(cdb, device.blockSize);
      Dispatch(cdb);
      if remainingCount < 0 {
        ok := false;
        NothingIssued(base, start);
        NothingWritten(before, data, start, device.blockSize);
      } else {
        ok, done := TransferOut(data, FieldsOfCdb(cdb), start, moved);
      }
      assert IssuedSince(base, device.issued, start, done)
        && Written(before, device.memory, data, start, done, device.blockSize);
      if !IsWhole(cdb, device.blockSize) {
        PartIsNotWhole(base, device.issued, start, done, AskedCount(cdb));
      }
    }
  }

  // A number of 32 bits, as a signed one
  function ByteCount(count: nat, size: nat): int {
    var n := count * size % LIMIT32;
    if n < LIMIT31 then n else n - LIMIT32
  }

  // The blocks that the byte count stands for
  function BlocksMoved(count: nat, size: nat): nat
    requires 0 < size
  {
    if ByteCount(count, size) < 0 then 0 else ByteCount(count, size) / size
  }

  // The whole range of a command is transferred.
  predicate IsWhole(cdb: seq<Byte>, size: nat)
    requires IsBlockTransfer(cdb)
  {
    CountOfCdb(cdb) * size < LIMIT31 && (|cdb| == 6 ==> cdb[4] != 0)
  }

  lemma DivisorOfLimit(size: nat)
    requires 0 < size && MAX_TRANSFER_LENGTH % size == 0
    ensures LIMIT32 / size * size == LIMIT32
  {
    var q := MAX_TRANSFER_LENGTH / size;
    assert q * size == MAX_TRANSFER_LENGTH;
    assert 65536 * q * size == LIMIT32;
    QuotientOfMultiple(65536 * q, size);
  }

  lemma RemainderOfMultiple(count: nat, size: nat, q: nat)
    requires 0 < size && 0 < q
    ensures 0 < q * size && count * size % (q * size) == count % q * size
  {
    var m, k := count % q, count / q;
    assert count == k * q + m;
    assert count * size == k * (q * size) + m * size;
    MultipleInOrder(m + 1, q, size);
    assert m * size < q * size;
    UniqueRemainder(count * size, q * size, k, m * size);
  }

  lemma UniqueRemainder(a: nat, d: nat, k: nat, r: nat)
    requires r < d && a == k * d + r
    ensures a % d == r
  {
    var x := a / d;
    assert a == x * d + a % d;
    if x < k {
      SectorsInOrder(d, x, k);
    } else if k < x {
      SectorsInOrder(d, k, x);
    }
  }

  // The byte count stands for whole blocks, for all of them if they are less than 2 GiB, and for less otherwise.
  lemma ByteCountIsTruncated(count: nat, size: nat)
    requires 0 < size && MAX_TRANSFER_LENGTH % size == 0
    ensures BlocksMoved(count, size) <= count
    ensures ByteCount(count, size) >= 0 ==> BlocksMoved(count, size) * size == ByteCount(count, size)
    ensures BlocksMoved(count, size) == count && ByteCount(count, size) >= 0 <==> count * size < LIMIT31
  {
    DivisorOfLimit(size);
    var q := LIMIT32 / size;
    RemainderOfMultiple(count, size, q);
    QuotientOfMultiple(count % q, size);
    assert count % q <= count;
    if count * size < LIMIT31 {
      UniqueRemainder(count * size, LIMIT32, 0, count * size);
      QuotientOfMultiple(count, size);
    }
  }

  // 0x00800000 blocks of 512 bytes are 4 GiB: the transfer is lost.
  lemma FourGigabytesAreLost()
    ensures var cdb := [0x88, 0, 0, 0, 0, 0, 0, 0, 0, 0, 0, 0x80, 0, 0, 0, 0];
            IsBlockTransfer(cdb) && AskedCount(cdb) == 0x80_0000 && BlocksMoved(AskedCount(cdb), 512) == 0
  {
    var cdb := [0x88, 0, 0, 0, 0, 0, 0, 0, 0, 0, 0, 0x80, 0, 0, 0, 0];
    assert GetInt(cdb, 10, 1) == 0 && GetInt(cdb, 10, 2) == 0x80 && GetInt(cdb, 10, 3) == 0x8000;
  }

  // A negative count is passed on as a number of bytes that the driver refuses.
  lemma NegativeIsTooLong(count: nat, size: nat)
    requires ByteCount(count, size) < 0
    ensures ByteCount(count, size) + LIMIT32 > MAX_TRANSFER_LENGTH
  {
  }

  lemma WholeIsAsked(cdb: seq<Byte>, size: nat)
    requires IsBlockTransfer(cdb) && 0 < size && MAX_TRANSFER_LENGTH % size == 0
    ensures BlocksMoved(CountOfCdb(cdb), size) <= CountOfCdb(cdb) <= AskedCount(cdb)
    ensures IsWhole(cdb, size) <==>
            BlocksMoved(CountOfCdb(cdb), size) == AskedCount(cdb) && ByteCount(CountOfCdb(cdb), size) >= 0
    ensures IsWhole(cdb, size) ==> ByteCount(CountOfCdb(cdb), size) >= 0
    ensures !IsWhole(cdb, size) ==> BlocksMoved(CountOfCdb(cdb), size) < AskedCount(cdb)
  {
    ByteCountIsTruncated(CountOfCdb(cdb), size);
  }

  lemma PartIsNotWhole(base: seq<Range>, log: seq<Range>, start: nat, done: nat, count: nat)
    requires IssuedSince(base, log, start, done) && done < count
    ensures !IssuedSince(base, log, start, count)
  {
    if IssuedSince(base, log, start, count) {
      TilesAreUnique(log[|base|..], start, done, count);
    }
  }

  // The commands issued since an earlier moment tile the blocks.
  predicate IssuedSince(base: seq<Range>, log: seq<Range>, start: nat, count: nat) {
    base <= log && Tiles(log[|base|..], start, count)
  }

  lemma NothingIssued(base: seq<Range>, start: nat)
    ensures IssuedSince(base, base, start, 0)
  {
  }

  lemma IssuedGrows(base: seq<Range>, log: seq<Range>, start: nat, done: nat, n: nat)
    requires IssuedSince(base, log, start, done) && 0 < n
    ensures IssuedSince(base, log + [Range(start + done, n)], start, done + n)
  {
    TilesGrow(log[|base|..], start, done, n);
    assert (log + [Range(start + done, n)])[|base|..] == log[|base|..] + [Range(start + done, n)];
  }

  // All commands but the last one move 64 KiB.
  predicate InFullParts(base: seq<Range>, log: seq<Range>, count: nat, size: nat)
    requires 0 < size
  {
    var k, q := |log| - |base|, 65536 / size;
    if k <= 0 then k == 0 && count == 0 else (k - 1) * q < count <= k * q
  }

  // How far the commands have come.
  predicate PartsDone(base: seq<Range>, log: seq<Range>, count: nat, done: nat, size: nat)
    requires 0 < size
  {
    var q := 65536 / size;
    |base| <= |log| && if done == count then InFullParts(base, log, count, size) else done == (|log| - |base|) * q
  }

  lemma PartsBegin(base: seq<Range>, count: nat, size: nat)
    requires 0 < size
    ensures PartsDone(base, base, count, 0, size)
  {
  }

  lemma AllPartsDone(base: seq<Range>, log: seq<Range>, count: nat, size: nat)
    requires 0 < size && PartsDone(base, log, count, count, size)
    ensures InFullParts(base, log, count, size)
  {
  }

  lemma PartsGoOn(base: seq<Range>, log: seq<Range>, r: Range, count: nat, done: nat, n: nat, size: nat)
    requires 0 < size && PartsDone(base, log, count, done, size) && done < count
    requires 0 < n == Min(count - done, 65536 / size)
    ensures PartsDone(base, log + [r], count, done + n, size)
  {
    var k, q := |log| - |base|, 65536 / size;
    assert (k + 1) * q == k * q + q;
  }

  lemma LeftBlocks(count: nat, done: nat, size: nat)
    requires done <= count && 0 < size
    ensures (count - done) * size > 0 <==> done < count
    ensures (count - done) * size <= count * size
  {
    MultipleInOrder(0, count - done, size);
    MultipleInOrder(count - done, count, size);
  }

  lemma DoneBytes(count: nat, done: nat, n: nat, size: nat)
    requires done + n <= count && 0 < size
    ensures count * size - (count - done) * size == done * size && n * size <= (count - done) * size
  {
    assert count * size == done * size + (count - done) * size;
    MultipleInOrder(n, count - done, size);
  }

  // The first done blocks of the data are in their place, and nothing else has changed.
  predicate Written(before: seq<Byte>, after: seq<Byte>, data: seq<Byte>, start: nat, done: nat, size: nat) {
    && done * size <= |data|
    && if done == 0 then after == before
       else start * size + done * size <= |before| && after == WriteAt(before, start * size, data[..done * size])
  }

  lemma NothingWritten(before: seq<Byte>, data: seq<Byte>, start: nat, size: nat)
    ensures Written(before, before, data, start, 0, size)
  {
  }

  lemma WriteGrows(before: seq<Byte>, middle: seq<Byte>, after: seq<Byte>, data: seq<Byte>, chunk: seq<Byte>,
                   start: nat, done: nat, n: nat, size: nat)
    requires Written(before, middle, data, start, done, size)
    requires Moved(middle, after, true, chunk, [], start + done, n, size)
    requires 0 < n && done * size + n * size <= |data| && chunk == data[done * size..done * size + n * size]
    ensures Written(before, after, data, start, done + n, size)
  {
    assert (start + done) * size == start * size + done * size && (done + n) * size == done * size + n * size;
    var p, d, e := start * size, done * size, n * size;
    if done == 0 {
      assert data[..e] == chunk;
    } else {
      WriteTwice(before, p, data[..d], chunk);
      assert data[..d] + chunk == data[..d + e];
    }
  }

  lemma WriteTwice(f: seq<Byte>, p: nat, a: seq<Byte>, b: seq<Byte>)
    requires p + |a| + |b| <= |f|
    ensures WriteAt(WriteAt(f, p, a), p + |a|, b) == WriteAt(f, p, a + b)
  {
  }

  predicate IsBlockTransfer(cdb: seq<Byte>) {
    && cdb != []
    && if |cdb| == 6 then cdb[0] in {0x08, 0x0a} else FieldsOf(cdb[0]).Some? && |cdb| == LengthOf(cdb[0])
  }

  // Where a READ or WRITE command has its fields once it has ten bytes or more
  function FieldsOfCdb(cdb: seq<Byte>): Fields
    requires IsBlockTransfer(cdb)
  {
    if |cdb| == 6 then Fields(7, 2, 2, 4, cdb[0] == 0x0a) else FieldsOf(cdb[0]).value
  }

  function StartOfCdb(cdb: seq<Byte>): nat
    requires IsBlockTransfer(cdb)
  {
    if |cdb| == 6 then GetInt(cdb, 1, 3) else GetInt(cdb, FieldsOfCdb(cdb).blockOffset, FieldsOfCdb(cdb).blockSize)
  }

  // The count in its field
  function CountOfCdb(cdb: seq<Byte>): nat
    requires IsBlockTransfer(cdb)
  {
    if |cdb| == 6 then cdb[4] else GetInt(cdb, FieldsOfCdb(cdb).countOffset, FieldsOfCdb(cdb).countSize)
  }

  // The blocks that the command asks for
  function AskedCount(cdb: seq<Byte>): nat
    requires IsBlockTransfer(cdb)
  {
    if |cdb| == 6 then CountOfSix(cdb) else CountOfCdb(cdb)
  }

  // ---- The commands as a host builds them ----

  function Cdb12(opcode: Byte, start: nat, count: nat): seq<Byte>
    requires start < LIMIT32 && count < LIMIT32
  {
    [opcode, 0, start / 0x100_0000, start / 0x1_0000 % 256, start / 256 % 256, start % 256,
     count / 0x100_0000, count / 0x1_0000 % 256, count / 256 % 256, count % 256, 0, 0]
  }

  // Two and four bytes
  lemma TwoBytes(cdb: seq<Byte>, offset: nat, v: nat)
    requires offset + 2 <= |cdb| && v < 0x1_0000 && cdb[offset] == v / 256 && cdb[offset + 1] == v % 256
    ensures GetInt(cdb, offset, 2) == v
  {
    assert GetInt(cdb, offset, 1) == cdb[offset] as nat by { assert GetInt(cdb, offset, 0) == 0; }
  }

  lemma FourBytes(cdb: seq<Byte>, offset: nat, v: nat)
    requires offset + 4 <= |cdb| && v < LIMIT32 && cdb[offset] == v / 0x100_0000
    requires cdb[offset + 1] == v / 0x1_0000 % 256 && cdb[offset + 2] == v / 256 % 256 && cdb[offset + 3] == v % 256
    ensures GetInt(cdb, offset, 4) == v
  {
    Halves(v);
    TwoBytes(cdb, offset, v / 0x1_0000);
    assert GetInt(cdb, offset, 3) == 256 * (v / 0x1_0000) + cdb[offset + 2] as nat;
    Requests.SplitWord(v);
  }

  lemma Halves(v: nat)
    requires v < LIMIT32
    ensures v / 0x1_0000 < 0x1_0000 && v / 0x1_0000 / 256 == v / 0x100_0000
  {
  }

  lemma NextByte(cdb: seq<Byte>, offset: nat, n: nat)
    requires offset + n + 1 <= |cdb|
    ensures GetInt(cdb, offset, n + 1) == 256 * GetInt(cdb, offset, n) + cdb[offset + n] as nat
    ensures GetInt(cdb, offset, 0) == 0
  {
  }

  lemma EightBytes(cdb: seq<Byte>, offset: nat, high: nat, low: nat)
    requires offset + 8 <= |cdb| && GetInt(cdb, offset, 4) == high && GetInt(cdb, offset + 4, 4) == low
    ensures GetInt(cdb, offset, 8) == LIMIT32 * high + low
  {
    hide GetInt;
    NextByte(cdb, offset, 4);
    NextByte(cdb, offset, 5);
    NextByte(cdb, offset, 6);
    NextByte(cdb, offset, 7);
    NextByte(cdb, offset + 4, 0);
    NextByte(cdb, offset + 4, 1);
    NextByte(cdb, offset + 4, 2);
    NextByte(cdb, offset + 4, 3);
  }

  // A READ or WRITE of a range, with six, ten, twelve or sixteen bytes
  predicate IsTransfer(bytes: seq<Byte>, write: bool, start: nat, count: nat) {
    || (start < 0x20_0000 && 0 < count <= 256 && bytes == Requests.Cdb6(if write then 0x0a else 0x08, start, count))
    || (start < LIMIT32 && count < 0x1_0000 && bytes == Requests.Cdb10(if write then 0x2a else 0x28, start, count))
    || (start < LIMIT32 && count < LIMIT32 && bytes == Cdb12(if write then 0xaa else 0xa8, start, count))
    || (start < LIMIT32 * LIMIT32 && count < LIMIT32
        && bytes == Requests.Cdb16(if write then 0x8a else 0x88, start, count))
  }

  // Such a command is taken for what it is. All its blocks are moved exactly if they are less than 2 GiB and it is not
  // a six byte command for 256 blocks.
  lemma TransferIsTaken(bytes: seq<Byte>, write: bool, start: nat, count: nat, size: nat)
    requires IsTransfer(bytes, write, start, count)
    ensures IsBlockTransfer(bytes) && StartOfCdb(bytes) == start && AskedCount(bytes) == count
    ensures FieldsOfCdb(bytes).dataOut == write
    ensures CountOfCdb(bytes) == if |bytes| == 6 then count % 256 else count
    ensures IsWhole(bytes, size) <==> (if |bytes| == 6 then count % 256 else count) * size < 0x8000_0000
                                      && (|bytes| == 6 ==> count != 256)
  {
    hide GetInt;
    if |bytes| == 6 {
      SixAreTaken(bytes, write, start, count);
    } else if |bytes| == 10 {
      TenAreTaken(bytes, write, start, count);
    } else if |bytes| == 12 {
      TwelveAreTaken(bytes, write, start, count);
    } else {
      SixteenAreTaken(bytes, write, start, count);
    }
    hide Cdb12;
  }

  lemma TenAreTaken(bytes: seq<Byte>, write: bool, start: nat, count: nat)
    requires start < LIMIT32 && count < 0x1_0000
    requires bytes == Requests.Cdb10(if write then 0x2a else 0x28, start, count)
    ensures |bytes| == 10 && bytes[0] == if write then 0x2a else 0x28
    ensures GetInt(bytes, 2, 4) == start && GetInt(bytes, 7, 2) == count
  {
    hide GetInt;
    TwoBytes(bytes, 7, count);
    FourBytes(bytes, 2, start);
  }

  lemma TwelveAreTaken(bytes: seq<Byte>, write: bool, start: nat, count: nat)
    requires start < LIMIT32 && count < LIMIT32 && bytes == Cdb12(if write then 0xaa else 0xa8, start, count)
    ensures |bytes| == 12 && bytes[0] == if write then 0xaa else 0xa8
    ensures GetInt(bytes, 2, 4) == start && GetInt(bytes, 6, 4) == count
  {
    hide GetInt;
    FourBytes(bytes, 6, count);
    FourBytes(bytes, 2, start);
  }

  lemma SixAreTaken(bytes: seq<Byte>, write: bool, start: nat, count: nat)
    requires start < 0x20_0000 && 0 < count <= 256
    requires bytes == Requests.Cdb6(if write then 0x0a else 0x08, start, count)
    ensures |bytes| == 6 && bytes[0] == (if write then 0x0a else 0x08) && bytes[4] as nat == count % 256
    ensures GetInt(bytes, 1, 3) == start
  {
    Halves(start);
    TwoBytes(bytes, 1, start / 256);
    assert GetInt(bytes, 1, 3) == 256 * (start / 256) + bytes[3] as nat;
  }

  lemma SixteenAreTaken(bytes: seq<Byte>, write: bool, start: nat, count: nat)
    requires start < LIMIT32 * LIMIT32 && count < LIMIT32
    requires bytes == Requests.Cdb16(if write then 0x8a else 0x88, start, count)
    ensures |bytes| == 16 && bytes[0] == (if write then 0x8a else 0x88)
    ensures GetInt(bytes, 2, 8) == start && GetInt(bytes, 10, 4) == count
  {
    hide GetInt;
    var high, low := start / LIMIT32, start % LIMIT32;
    FourBytes(bytes, 2, high);
    FourBytes(bytes, 6, low);
    FourBytes(bytes, 10, count);
    EightBytes(bytes, 2, high, low);
  }
}
