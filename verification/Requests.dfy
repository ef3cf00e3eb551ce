// What a command descriptor block asks the disk for.
module Requests {
  import opened Basics
  import opened Disks
  import opened TargetBuses

  datatype Request =
    | TestUnitReady
    | Synchronize
    | Seek(mode: AccessMode)
    | ReadBlocks(mode: AccessMode)
    | WriteBlocks(mode: AccessMode)
    | VerifyBlocks(mode: AccessMode)
    | Elsewhere      // a command of the disk that is not part of the model
    | Unsupported

  // What a command moves. Nothing is promised for a transfer that is outside the model.
  datatype Plan =
    | Nothing(error: Option<Sense>)
    | Reading(start: nat, count: nat)
    | Writing(start: nat, count: nat)
    | Unmodelled

  // What the answer to a command depends on, besides its bytes.
  datatype Situation = Situation(identifiedLun: int, ready: Option<Sense>, isProtected: bool, size: nat, blocks: nat)

  function RequestOf(opcode: Byte): Request {
    // TEST UNIT READY, REZERO and REASSIGN BLOCKS
    if opcode in {0x00, 0x01, 0x07} then TestUnitReady
    else if opcode in {0x35, 0x91} then Synchronize
    else if opcode == 0x0b then Seek(SEEK6)
    else if opcode == 0x2b then Seek(SEEK10)
    else if opcode == 0x08 then ReadBlocks(RW6)
    else if opcode == 0x28 then ReadBlocks(RW10)
    else if opcode == 0x88 then ReadBlocks(RW16)
    else if opcode == 0x0a then WriteBlocks(RW6)
    else if opcode == 0x2a then WriteBlocks(RW10)
    else if opcode == 0x8a then WriteBlocks(RW16)
    else if opcode == 0x2f then VerifyBlocks(RW10)
    else if opcode == 0x8f then VerifyBlocks(RW16)
    else if opcode in {0x03, 0x04, 0x12, 0x15, 0x16, 0x17, 0x1a, 0x1b, 0x1d, 0x1e, 0x23, 0x25, 0x37, 0x3e, 0x3f, 0x55,
                       0x5a,
                       0x9e, 0x9f, 0xa0} then Elsewhere
    else Unsupported
  }

  const OUT_OF_RANGE: Sense := Sense(IllegalRequest, LbaOutOfRange)
  const BAD_OPCODE: Sense := Sense(IllegalRequest, InvalidCommandOperationCode)
  const BAD_FIELD: Sense := Sense(IllegalRequest, InvalidFieldInCdb)
  const BAD_LUN: Sense := Sense(IllegalRequest, LogicalUnitNotSupported)
  const PROTECTED: Sense := Sense(DataProtect, WriteProtected)

  function LunOf(identifiedLun: int, cdb: seq<Byte>): int
    requires |cdb| == 16
  {
    if identifiedLun != -1 then identifiedLun else cdb[1] / 32
  }

  predicate IsLinked(control: Byte) {
    control % 2 == 1
  }

  predicate HasFlag(control: Byte) {
    control / 2 % 2 == 1
  }

  // Ranges whose 64 bit end wraps around and transfers of 2 GiB or more are outside the model.
  predicate IsModelled(start: nat, count: nat, x: Situation) {
    start + count <= x.blocks && count * x.size < LIMIT31
  }

  function PlanOfBegin(b: Begin, x: Situation, write: bool): Plan {
    match b
    case Refused(s) => Nothing(Some(s))
    case NoTransfer => Nothing(None)
    case Transfer(start, count) =>
      if !IsModelled(start, count, x) then Unmodelled
      else if write then Writing(start, count)
      else Reading(start, count)
  }

  function TransferAnswer(x: Situation, cdb: seq<Byte>, m: AccessMode, write: bool): Begin
    requires |cdb| == 16
  {
    if write && x.isProtected then Refused(PROTECTED) else RangeAnswer(x.ready, cdb, m, x.blocks)
  }

  function CheckOnly(b: Begin): Plan {
    Nothing(if b.Refused? then Some(b.sense) else None)
  }

  // REQUEST SENSE and INQUIRY, which LUN 0 answers for a missing LUN
  predicate AnswersForAnyLun(opcode: Byte) {
    opcode in {0x03, 0x12}
  }

  function PlanOf(cdb: seq<Byte>, x: Situation): Plan
    requires |cdb| == 16
  {
    if AnswersForAnyLun(cdb[0]) then Unmodelled
    else if LunOf(x.identifiedLun, cdb) != 0 then Nothing(Some(BAD_LUN))
    else match RequestOf(cdb[0])
         case TestUnitReady => Nothing(x.ready)
         case Synchronize => Nothing(None)
         case Seek(m) => CheckOnly(RangeAnswer(x.ready, cdb, m, x.blocks))
         case VerifyBlocks(m) => CheckOnly(RangeAnswer(x.ready, cdb, m, x.blocks))
         case ReadBlocks(m) => PlanOfBegin(TransferAnswer(x, cdb, m, false), x, false)
         case WriteBlocks(m) => PlanOfBegin(TransferAnswer(x, cdb, m, true), x, true)
         case Elsewhere => Unmodelled
         case Unsupported => Nothing(Some(BAD_OPCODE))
  }

  lemma PlanByLun(cdb: seq<Byte>, x: Situation)
    requires |cdb| == 16
    ensures AnswersForAnyLun(cdb[0]) ==> PlanOf(cdb, x) == Unmodelled
    ensures !AnswersForAnyLun(cdb[0]) && LunOf(x.identifiedLun, cdb) != 0 ==> PlanOf(cdb, x) == Nothing(Some(BAD_LUN))
  {
  }

  // Whether a command flushes the cache: SYNCHRONIZE CACHE does, and VERIFY if its range is accepted.
  predicate Flushes(cdb: seq<Byte>, x: Situation)
    requires |cdb| == 16
  {
    && LunOf(x.identifiedLun, cdb) == 0
    && match RequestOf(cdb[0])
       case Synchronize => true
       case VerifyBlocks(m) => !RangeAnswer(x.ready, cdb, m, x.blocks).Refused?
       case _ => false
  }

  lemma FlushIsForDisk(cdb: seq<Byte>, x: Situation)
    requires |cdb| == 16
    ensures Flushes(cdb, x) ==> LunOf(x.identifiedLun, cdb) == 0 && !AnswersForAnyLun(cdb[0])
  {
  }

  // The commands as a host builds them, most significant byte first.
  function Cdb6(opcode: Byte, start: nat, count: nat): seq<Byte>
    requires start < 0x20_0000 && 0 < count <= 256
  {
    [opcode, start / 0x1_0000, start / 256 % 256, start % 256, count % 256, 0]
  }

  function Cdb10(opcode: Byte, start: nat, count: nat): seq<Byte>
    requires start < 0x1_0000_0000 && count < 0x1_0000
  {
    [opcode, 0, start / 0x100_0000, start / 0x1_0000 % 256, start / 256 % 256, start % 256,
     0, count / 256, count % 256, 0]
  }

  function Cdb16(opcode: Byte, start: nat, count: nat): seq<Byte>
    requires start < LIMIT64 && count < 0x1_0000_0000
  {
    var high, low := start / 0x1_0000_0000, start % 0x1_0000_0000;
    [opcode, 0, high / 0x100_0000, high / 0x1_0000 % 256, high / 256 % 256, high % 256,
     low / 0x100_0000, low / 0x1_0000 % 256, low / 256 % 256, low % 256,
     count / 0x100_0000, count / 0x1_0000 % 256, count / 256 % 256, count % 256, 0, 0]
  }

  lemma SplitWord(n: nat)
    requires n < 0x1_0000_0000
    ensures 0x1_0000 * (256 * (n / 0x100_0000) + n / 0x1_0000 % 256) + (256 * (n / 256 % 256) + n % 256) == n
  {
  }

  // A READ or WRITE command carries the range its host asked for, whatever the rest of the CDB buffer holds.
  lemma Cdb6CarriesRange(opcode: Byte, start: nat, count: nat, rest: seq<Byte>)
    requires start < 0x20_0000 && 0 < count <= 256 && |rest| == 10
    ensures StartOf(Cdb6(opcode, start, count) + rest, RW6) == start
    ensures CountOf(Cdb6(opcode, start, count) + rest, RW6) == count
  {
    var cdb := Cdb6(opcode, start, count) + rest;
    SplitWord(start);
    assert GetInt16(cdb, 2) == 256 * (start / 256 % 256) + start % 256;
    assert GetInt24(cdb, 1) == start;
  }

  lemma Cdb10CarriesRange(opcode: Byte, start: nat, count: nat, rest: seq<Byte>)
    requires start < 0x1_0000_0000 && count < 0x1_0000 && |rest| == 6
    ensures StartOf(Cdb10(opcode, start, count) + rest, RW10) == start
    ensures CountOf(Cdb10(opcode, start, count) + rest, RW10) == count
  {
    var cdb := Cdb10(opcode, start, count) + rest;
    SplitWord(start);
    assert GetInt16(cdb, 2) == 256 * (start / 0x100_0000) + start / 0x1_0000 % 256;
    assert GetInt16(cdb, 4) == 256 * (start / 256 % 256) + start % 256;
    assert GetInt16(cdb, 7) == 256 * (count / 256) + count % 256;
  }

  lemma Cdb16CarriesRange(opcode: Byte, start: nat, count: nat)
    requires start < LIMIT64 && count < 0x1_0000_0000
    ensures StartOf(Cdb16(opcode, start, count), RW16) == start
    ensures CountOf(Cdb16(opcode, start, count), RW16) == count
  {
    var cdb := Cdb16(opcode, start, count);
    var high, low := start / 0x1_0000_0000, start % 0x1_0000_0000;
    SplitWord(high);
    SplitWord(low);
    SplitWord(count);
    assert GetInt32(cdb, 2) == high;
    assert GetInt32(cdb, 6) == low;
    assert GetInt32(cdb, 10) == count;
  }

  // A ready disk refuses a READ or WRITE exactly if its range ends behind the medium and the end does not wrap around
  // 64 bits to one on the medium. It reads or writes exactly the range if this is on the medium and less than 2 GiB,
  // and nothing for count 0; what it does with the ranges that are left is not modelled.
  lemma RangeIsPlan(cdb: seq<Byte>, x: Situation, m: AccessMode, write: bool)
    requires |cdb| == 16 && m in {RW6, RW10, RW16}
    requires cdb[0] == if m == RW6 then (if write then 0x0a else 0x08)
                       else if m == RW10 then (if write then 0x2a else 0x28)
                       else if write then 0x8a else 0x88
    requires LunOf(x.identifiedLun, cdb) == 0 && x.ready.None? && (write ==> !x.isProtected) && 0 < x.blocks < LIMIT64
    ensures StartOf(cdb, m) < LIMIT64 && CountOf(cdb, m) < LIMIT64
    ensures var start, count := StartOf(cdb, m), CountOf(cdb, m);
            PlanOf(cdb, x) ==
            if x.blocks < start + count < LIMIT64 || LIMIT64 + x.blocks < start + count then Nothing(Some(OUT_OF_RANGE))
            else if count == 0 then Nothing(None)
            else if start + count > x.blocks || count * x.size >= LIMIT31 then Unmodelled
            else if write then Writing(start, count)
            else Reading(start, count)
  {
    FieldsAreBounded(cdb, m);
    CheckIsExactUpToWrap(StartOf(cdb, m), CountOf(cdb, m), x.blocks);
  }

  lemma FieldsAreBounded(cdb: seq<Byte>, m: AccessMode)
    requires |cdb| == 16
    ensures StartOf(cdb, m) < LIMIT64 && CountOf(cdb, m) < LIMIT64
  {
  }

  // How the bytes a host puts out in the COMMAND phase are understood. The CDB buffer takes the bytes of the command.
  predicate Understood(host: seq<Byte>, cdb: seq<Byte>, x: Situation, plan: Plan, rest: seq<Byte>, linked: bool,
                       flag: bool)
    requires |cdb| == 16
  {
    var p := CommandStart(host);
    && p < |host|
    && var n := CommandLength(host[p]);
       if n == 0 then plan == Nothing(Some(BAD_OPCODE)) && rest == host[p + 1..]
       else
         && p + n <= |host| && cdb[..n] == host[p..p + n] && rest == host[p + n..]
         && linked == IsLinked(host[p + n - 1]) && flag == HasFlag(host[p + n - 1])
         && plan == if flag && !linked then Nothing(Some(BAD_FIELD)) else PlanOf(cdb, x)
  }

  // The host puts out a command that flushes the cache.
  predicate AsksForFlush(host: seq<Byte>, cdb: seq<Byte>, x: Situation)
    requires |cdb| == 16
  {
    var p := CommandStart(host);
    && p < |host|
    && var n := CommandLength(host[p]);
       && n != 0 && p + n <= |host|
       && (HasFlag(host[p + n - 1]) ==> IsLinked(host[p + n - 1])) && Flushes(cdb, x)
  }
}
