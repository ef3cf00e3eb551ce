// What a host gets for the commands it puts out, byte by byte.
module CommandAnswers {
  import opened Basics
  import opened Disks
  import opened TargetBuses
  import opened Requests

  // A READ or WRITE of a range, with six, ten or sixteen bytes
  predicate IsTransfer(bytes: seq<Byte>, write: bool, start: nat, count: nat) {
    || (start < 0x20_0000 && 0 < count <= 256 && bytes == Cdb6(if write then 0x0a else 0x08, start, count))
    || (start < 0x1_0000_0000 && count < 0x1_0000 && bytes == Cdb10(if write then 0x2a else 0x28, start, count))
    || (start < LIMIT64 && count < 0x1_0000_0000 && bytes == Cdb16(if write then 0x8a else 0x88, start, count))
  }

  // A 0x1f may stand in front of a command.
  predicate PutsOut(host: seq<Byte>, icd: seq<Byte>, bytes: seq<Byte>) {
    (icd == [] || icd == [0x1f]) && icd + bytes <= host
  }

  // A command is taken byte by byte, and its control byte has the link and the flag bit.
  lemma CommandIsTaken(host: seq<Byte>, icd: seq<Byte>, bytes: seq<Byte>, cdb: seq<Byte>, x: Situation, plan: Plan,
                       rest: seq<Byte>, linked: bool, flag: bool)
    requires bytes != [] && |bytes| == CommandLength(bytes[0]) && bytes[0] != 0x1f && |cdb| == 16
    requires PutsOut(host, icd, bytes) && Understood(host, cdb, x, plan, rest, linked, flag)
    ensures |bytes| <= 16 && cdb[..|bytes|] == bytes && rest == host[|icd| + |bytes|..]
    ensures var control := bytes[|bytes| - 1];
            && (linked <==> control % 4 in {1, 3}) && (flag <==> control % 4 in {2, 3})
            && plan == if control % 4 == 2 then Nothing(Some(Sense(IllegalRequest, InvalidFieldInCdb)))
                       else PlanOf(cdb, x)
  {
    hide PlanOf;
    var p, n := |icd|, |bytes|;
    var all := icd + bytes;
    assert host[..|all|] == all;
    assert host[p] == all[p] == bytes[0];
    assert host[p..p + n] == all[p..] == bytes;
    assert icd == [0x1f] ==> host[0] == all[0];
    assert CommandStart(host) == p;
    ControlBits(bytes[n - 1]);
  }

  lemma ControlBits(control: Byte)
    ensures IsLinked(control) <==> control % 4 in {1, 3}
    ensures HasFlag(control) <==> control % 4 in {2, 3}
  {
  }

  // The length of a command is that of its group, but for the last opcode of the first groups and the last two groups.
  lemma LengthIsThatOfGroup(opcode: Byte)
    ensures CommandLength(opcode) ==
            if opcode in {0x1f, 0x7f} then 0
            else if opcode / 32 == 0 then 6
            else if opcode / 32 in {1, 2, 3} || opcode in {0xc0, 0xc1} then 10
            else if opcode / 32 == 4 then 16
            else if opcode / 32 == 5 then 12
            else 0
  {
  }

  function FormOf(bytes: seq<Byte>): AccessMode {
    if |bytes| == 6 then RW6 else if |bytes| == 10 then RW10 else RW16
  }

  // The fields of a READ or WRITE in the CDB buffer
  lemma TransferFields(bytes: seq<Byte>, write: bool, start: nat, count: nat, cdb: seq<Byte>)
    requires IsTransfer(bytes, write, start, count) && |cdb| == 16 && |bytes| <= 16 && cdb[..|bytes|] == bytes
    ensures StartOf(cdb, FormOf(bytes)) == start && CountOf(cdb, FormOf(bytes)) == count && LunOf(-1, cdb) == 0
    ensures RequestOf(cdb[0]) == if write then WriteBlocks(FormOf(bytes)) else ReadBlocks(FormOf(bytes))
  {
    hide StartOf;
    hide CountOf;
    assert cdb == bytes + cdb[|bytes|..] && cdb[0] == bytes[0] && cdb[1] == bytes[1];
    var opcode := bytes[0];
    if |bytes| == 6 {
      SixBytesShow(opcode, start, count);
      Cdb6CarriesRange(opcode, start, count, cdb[6..]);
    } else if |bytes| == 10 {
      Cdb10CarriesRange(opcode, start, count, cdb[10..]);
    } else {
      assert cdb == bytes;
      Cdb16CarriesRange(opcode, start, count);
    }
  }

  // The upper three bits of the second byte are free for a LUN.
  lemma SixBytesShow(opcode: Byte, start: nat, count: nat)
    requires start < 0x20_0000 && 0 < count <= 256
    ensures Cdb6(opcode, start, count)[1] / 32 == 0
  {
  }

  lemma TransferBytes(bytes: seq<Byte>, write: bool, start: nat, count: nat)
    requires IsTransfer(bytes, write, start, count)
    ensures |bytes| in {6, 10, 16} && |bytes| == CommandLength(bytes[0]) && bytes[0] != 0x1f
    ensures bytes[|bytes| - 1] == 0 && start < LIMIT64 && count < 0x1_0000_0000 && !AnswersForAnyLun(bytes[0])
  {
  }

  // A READ or WRITE in each of its three forms, whatever the state of the disk: which command it is, which blocks it
  // moves, and why it is refused.
  lemma TransferIsUnderstood(host: seq<Byte>, icd: seq<Byte>, bytes: seq<Byte>, cdb: seq<Byte>, x: Situation,
                             plan: Plan,
                             rest: seq<Byte>, linked: bool, flag: bool, write: bool, start: nat, count: nat)
    requires IsTransfer(bytes, write, start, count) && PutsOut(host, icd, bytes) && |cdb| == 16
    requires Understood(host, cdb, x, plan, rest, linked, flag) && x.blocks < LIMIT64
    ensures |icd| + |bytes| <= |host| && rest == host[|icd| + |bytes|..] && !linked && !flag
    ensures plan ==
            if x.identifiedLun !in {-1, 0} then Nothing(Some(Sense(IllegalRequest, LogicalUnitNotSupported)))
            else if write && x.isProtected then Nothing(Some(Sense(DataProtect, WriteProtected)))
            else if x.ready.Some? then Nothing(x.ready)
            else if x.blocks == 0 || x.blocks < start + count < LIMIT64 || LIMIT64 + x.blocks < start + count
              then Nothing(Some(Sense(IllegalRequest, LbaOutOfRange)))
            else if count == 0 then Nothing(None)
            else if start + count > x.blocks || count * x.size >= LIMIT31 then Unmodelled
            else if write then Writing(start, count)
            else Reading(start, count)
  {
    hide PlanOf;
    hide Understood;
    hide IsTransfer;
    TransferBytes(bytes, write, start, count);
    CommandIsTaken(host, icd, bytes, cdb, x, plan, rest, linked, flag);
    TransferFields(bytes, write, start, count, cdb);
    PlanOfTransfer(cdb, x, FormOf(bytes), write);
    RangeOnDisk(start, count, x.blocks);
  }

  lemma PlanOfTransfer(cdb: seq<Byte>, x: Situation, m: AccessMode, write: bool)
    requires |cdb| == 16 && RequestOf(cdb[0]) == if write then WriteBlocks(m) else ReadBlocks(m)
    requires LunOf(-1, cdb) == 0 && m in {RW6, RW10, RW16}
    ensures var start, count := StartOf(cdb, m), CountOf(cdb, m);
            PlanOf(cdb, x) ==
            if x.identifiedLun !in {-1, 0} then Nothing(Some(Sense(IllegalRequest, LogicalUnitNotSupported)))
            else if write && x.isProtected then Nothing(Some(Sense(DataProtect, WriteProtected)))
            else if x.ready.Some? then Nothing(x.ready)
            else if !PassesCheck(start, count, x.blocks) then Nothing(Some(Sense(IllegalRequest, LbaOutOfRange)))
            else if count == 0 then Nothing(None)
            else if start + count > x.blocks || count * x.size >= LIMIT31 then Unmodelled
            else if write then Writing(start, count)
            else Reading(start, count)
  {
    hide StartOf;
    hide CountOf;
    hide PassesCheck;
  }

  lemma RangeOnDisk(start: nat, count: nat, blocks: nat)
    requires start < LIMIT64 && count < LIMIT64 && blocks < LIMIT64
    ensures PassesCheck(start, count, blocks) <==>
            !(blocks == 0 || blocks < start + count < LIMIT64 || LIMIT64 + blocks < start + count)
  {
    hide PassesCheck;
    if blocks > 0 {
      CheckIsExactUpToWrap(start, count, blocks);
    } else {
      NothingOnEmptyDisk(start, count);
    }
  }

  lemma NothingOnEmptyDisk(start: nat, count: nat)
    ensures !PassesCheck(start, count, 0)
  {
  }

  // ---- The commands that move nothing ----

  // TEST UNIT READY, REZERO and REASSIGN BLOCKS report the state of the disk.
  lemma ReadinessIsReported(host: seq<Byte>, icd: seq<Byte>, bytes: seq<Byte>, cdb: seq<Byte>, x: Situation, plan: Plan,
                            rest: seq<Byte>, linked: bool, flag: bool)
    requires |bytes| == 6 && bytes[0] in {0x00, 0x01, 0x07} && bytes[1] < 32 && bytes[5] == 0 && |cdb| == 16
    requires PutsOut(host, icd, bytes) && Understood(host, cdb, x, plan, rest, linked, flag)
    ensures plan == if x.identifiedLun !in {-1, 0} then Nothing(Some(Sense(IllegalRequest, LogicalUnitNotSupported)))
                    else Nothing(x.ready)
  {
    hide Understood;
    CommandIsTaken(host, icd, bytes, cdb, x, plan, rest, linked, flag);
    assert cdb[0] == cdb[..6][0] && cdb[1] == cdb[..6][1];
  }

  // SYNCHRONIZE CACHE always succeeds.
  lemma SynchronizeSucceeds(host: seq<Byte>, icd: seq<Byte>, bytes: seq<Byte>, cdb: seq<Byte>, x: Situation, plan: Plan,
                            rest: seq<Byte>, linked: bool, flag: bool)
    requires (|bytes| == 10 && bytes[0] == 0x35) || (|bytes| == 16 && bytes[0] == 0x91)
    requires bytes[1] < 32 && bytes[|bytes| - 1] == 0 && |cdb| == 16
    requires PutsOut(host, icd, bytes) && Understood(host, cdb, x, plan, rest, linked, flag)
    ensures plan == if x.identifiedLun !in {-1, 0} then Nothing(Some(Sense(IllegalRequest, LogicalUnitNotSupported)))
                    else Nothing(None)
  {
    hide Understood;
    CommandIsTaken(host, icd, bytes, cdb, x, plan, rest, linked, flag);
    assert cdb[0] == cdb[..|bytes|][0] && cdb[1] == cdb[..|bytes|][1];
  }

  // VERIFY checks its range and moves nothing.
  lemma VerifyChecksRange(host: seq<Byte>, icd: seq<Byte>, bytes: seq<Byte>, cdb: seq<Byte>, x: Situation, plan: Plan,
                          rest: seq<Byte>, linked: bool, flag: bool, start: nat, count: nat)
    requires IsVerify(bytes, start, count) && PutsOut(host, icd, bytes) && |cdb| == 16
    requires Understood(host, cdb, x, plan, rest, linked, flag) && x.blocks < LIMIT64
    ensures plan ==
            if x.identifiedLun !in {-1, 0} then Nothing(Some(Sense(IllegalRequest, LogicalUnitNotSupported)))
            else if x.ready.Some? then Nothing(x.ready)
            else if x.blocks == 0 || x.blocks < start + count < LIMIT64 || LIMIT64 + x.blocks < start + count
              then Nothing(Some(Sense(IllegalRequest, LbaOutOfRange)))
            else Nothing(None)
  {
    hide Understood;
    hide PlanOf;
    VerifyBytes(bytes, start, count);
    CommandIsTaken(host, icd, bytes, cdb, x, plan, rest, linked, flag);
    VerifyFields(bytes, start, count, cdb);
    hide IsVerify;
    PlanOfCheck(cdb, x, FormOf(bytes), true);
    RangeOnDisk(start, count, x.blocks);
  }

  predicate IsVerify(bytes: seq<Byte>, start: nat, count: nat) {
    || (start < 0x1_0000_0000 && count < 0x1_0000 && bytes == Cdb10(0x2f, start, count))
    || (start < LIMIT64 && count < 0x1_0000_0000 && bytes == Cdb16(0x8f, start, count))
  }

  lemma VerifyBytes(bytes: seq<Byte>, start: nat, count: nat)
    requires IsVerify(bytes, start, count)
    ensures |bytes| in {10, 16} && |bytes| == CommandLength(bytes[0]) && bytes[0] != 0x1f
    ensures bytes[|bytes| - 1] == 0 && start < LIMIT64 && count < 0x1_0000_0000
  {
  }

  lemma VerifyFields(bytes: seq<Byte>, start: nat, count: nat, cdb: seq<Byte>)
    requires IsVerify(bytes, start, count) && |cdb| == 16 && |bytes| <= 16 && cdb[..|bytes|] == bytes
    ensures StartOf(cdb, FormOf(bytes)) == start && CountOf(cdb, FormOf(bytes)) == count && LunOf(-1, cdb) == 0
    ensures RequestOf(cdb[0]) == VerifyBlocks(FormOf(bytes))
  {
    hide StartOf;
    hide CountOf;
    assert cdb == bytes + cdb[|bytes|..] && cdb[0] == bytes[0] && cdb[1] == bytes[1];
    if |bytes| == 10 {
      Cdb10CarriesRange(0x2f, start, count, cdb[10..]);
    } else {
      assert cdb == bytes;
      Cdb16CarriesRange(0x8f, start, count);
    }
  }

  lemma PlanOfCheck(cdb: seq<Byte>, x: Situation, m: AccessMode, verify: bool)
    requires |cdb| == 16 && RequestOf(cdb[0]) == (if verify then VerifyBlocks(m) else Seek(m)) && LunOf(-1, cdb) == 0
    ensures PlanOf(cdb, x) ==
            if x.identifiedLun !in {-1, 0} then Nothing(Some(Sense(IllegalRequest, LogicalUnitNotSupported)))
            else if x.ready.Some? then Nothing(x.ready)
            else if !PassesCheck(StartOf(cdb, m), CountOf(cdb, m), x.blocks)
              then Nothing(Some(Sense(IllegalRequest, LbaOutOfRange)))
            else Nothing(None)
  {
    hide StartOf;
    hide CountOf;
    hide PassesCheck;
  }

  // SEEK(6) takes its last bytes for a count, so that a seek to one of the last 255 blocks is refused. SEEK(10) accepts
  // the block behind the last one.
  lemma SeekIsOff(host: seq<Byte>, icd: seq<Byte>, bytes: seq<Byte>, cdb: seq<Byte>, x: Situation, plan: Plan,
                  rest: seq<Byte>, linked: bool, flag: bool, start: nat)
    requires |cdb| == 16 && x.identifiedLun in {-1, 0} && x.ready.None? && x.blocks < LIMIT64
    requires || (start < 0x20_0000 && bytes == [0x0b, start / 0x1_0000, start / 256 % 256, start % 256, 0, 0])
             || (start < 0x1_0000_0000 && bytes == Cdb10(0x2b, start, 0))
    requires PutsOut(host, icd, bytes) && Understood(host, cdb, x, plan, rest, linked, flag)
    ensures plan == if 0 < x.blocks && start + (if bytes[0] == 0x0b then 256 else 0) <= x.blocks then Nothing(None)
                    else Nothing(Some(Sense(IllegalRequest, LbaOutOfRange)))
  {
    hide Understood;
    hide PlanOf;
    var m := if |bytes| == 6 then SEEK6 else SEEK10;
    var count := if |bytes| == 6 then 256 else 0;
    CommandIsTaken(host, icd, bytes, cdb, x, plan, rest, linked, flag);
    SeekFields(bytes, start, cdb);
    PlanOfCheck(cdb, x, m, false);
    RangeOnDisk(start, count, x.blocks);
  }

  lemma SeekFields(bytes: seq<Byte>, start: nat, cdb: seq<Byte>)
    requires || (start < 0x20_0000 && bytes == [0x0b, start / 0x1_0000, start / 256 % 256, start % 256, 0, 0])
             || (start < 0x1_0000_0000 && bytes == Cdb10(0x2b, start, 0))
    requires |cdb| == 16 && |bytes| <= 16 && cdb[..|bytes|] == bytes
    ensures var m := if |bytes| == 6 then SEEK6 else SEEK10;
            && StartOf(cdb, m) == start && CountOf(cdb, m) == (if |bytes| == 6 then 256 else 0)
            && LunOf(-1, cdb) == 0 && RequestOf(cdb[0]) == Seek(m)
  {
    assert cdb == bytes + cdb[|bytes|..] && cdb[0] == bytes[0] && cdb[1] == bytes[1];
    if |bytes| == 6 {
      assert bytes == Cdb6(0x0b, start, 256);
      Cdb6CarriesRange(0x0b, start, 256, cdb[6..]);
    } else {
      Cdb10CarriesRange(0x2b, start, 0, cdb[10..]);
    }
  }

  // Every other command, unless it is one of those a disk has besides: it is refused. An opcode without a length is
  // refused at once.
  lemma UnknownIsRefused(host: seq<Byte>, icd: seq<Byte>, bytes: seq<Byte>, cdb: seq<Byte>, x: Situation, plan: Plan,
                         rest: seq<Byte>, linked: bool, flag: bool)
    requires bytes != []
    requires bytes[0] !in {0x00, 0x01, 0x07, 0x08, 0x0a, 0x0b, 0x28, 0x2a, 0x2b, 0x2f, 0x35, 0x88, 0x8a, 0x8f,
                                          0x91}
    requires bytes[0] !in {0x03, 0x04, 0x12, 0x15, 0x16, 0x17, 0x1a, 0x1b, 0x1d, 0x1e, 0x23, 0x25, 0x37, 0x3e, 0x3f,
                           0x55,
                           0x5a, 0x9e, 0x9f, 0xa0}
    requires |bytes| == CommandLength(bytes[0]) && bytes[1] < 32 && bytes[|bytes| - 1] == 0 && |cdb| == 16
    requires PutsOut(host, icd, bytes) && Understood(host, cdb, x, plan, rest, linked, flag)
    ensures plan == if x.identifiedLun !in {-1, 0} then Nothing(Some(Sense(IllegalRequest, LogicalUnitNotSupported)))
                    else Nothing(Some(Sense(IllegalRequest, InvalidCommandOperationCode)))
  {
    hide Understood;
    NoLength();
    CommandIsTaken(host, icd, bytes, cdb, x, plan, rest, linked, flag);
    assert cdb[0] == cdb[..|bytes|][0] && cdb[1] == cdb[..|bytes|][1];
    hide CommandLength;
  }

  lemma NoLength()
    ensures CommandLength(0x1f) == 0
  {
  }

  lemma OpcodeWithoutLength(host: seq<Byte>, icd: seq<Byte>, opcode: Byte, cdb: seq<Byte>, x: Situation, plan: Plan,
                            rest: seq<Byte>, linked: bool, flag: bool)
    requires CommandLength(opcode) == 0 && (opcode == 0x1f ==> icd != []) && |cdb| == 16
    requires PutsOut(host, icd, [opcode]) && Understood(host, cdb, x, plan, rest, linked, flag)
    ensures plan == Nothing(Some(Sense(IllegalRequest, InvalidCommandOperationCode)))
    ensures |icd| < |host| && rest == host[|icd| + 1..]
  {
    var all := icd + [opcode];
    assert host[..|all|] == all && host[|icd|] == all[|icd|];
    assert icd == [0x1f] ==> host[0] == all[0];
  }

  // A LUN other than 0 does not exist, whether it is in the command or in an IDENTIFY message, which wins.
  lemma OnlyLunZero(cdb: seq<Byte>, x: Situation, lun: nat)
    requires |cdb| == 16 && cdb[0] !in {0x03, 0x12}
    requires if x.identifiedLun != -1 then x.identifiedLun == lun else 32 * lun <= cdb[1] as nat < 32 * lun + 32
    ensures lun != 0 ==> PlanOf(cdb, x) == Nothing(Some(Sense(IllegalRequest, LogicalUnitNotSupported)))
    ensures lun == 0 && cdb[0] in {0x35, 0x91} ==> PlanOf(cdb, x) == Nothing(None)
  {
    hide RangeAnswer;
    hide TransferAnswer;
  }

  // ---- The commands that flush the cache ----

  ghost predicate IsFlush(bytes: seq<Byte>, blocks: nat) {
    || (|bytes| == 10 && bytes[0] == 0x35 && bytes[1] < 32 && bytes[9] == 0)
    || (|bytes| == 16 && bytes[0] == 0x91 && bytes[1] < 32 && bytes[15] == 0)
    || exists start: nat, count: nat :: IsVerify(bytes, start, count) && start + count <= blocks
  }

  lemma FlushIsUnderstood(host: seq<Byte>, icd: seq<Byte>, bytes: seq<Byte>, cdb: seq<Byte>, x: Situation, plan: Plan,
                          rest: seq<Byte>, linked: bool, flag: bool)
    requires IsFlush(bytes, x.blocks) && PutsOut(host, icd, bytes) && |cdb| == 16
    requires Understood(host, cdb, x, plan, rest, linked, flag)
    requires x.identifiedLun in {-1, 0} && x.ready.None? && 0 < x.blocks < LIMIT64
    ensures plan == Nothing(None) && AsksForFlush(host, cdb, x)
  {
    hide Understood;
    hide AsksForFlush;
    hide Flushes;
    if start: nat, count: nat :| IsVerify(bytes, start, count) && start + count <= x.blocks {
      VerifyChecksRange(host, icd, bytes, cdb, x, plan, rest, linked, flag, start, count);
      VerifyFlushes(host, icd, bytes, cdb, x, plan, rest, linked, flag, start, count);
    } else {
      SynchronizeSucceeds(host, icd, bytes, cdb, x, plan, rest, linked, flag);
      SynchronizeFlushes(host, icd, bytes, cdb, x, plan, rest, linked, flag);
    }
  }

  lemma FlushIsAskedFor(host: seq<Byte>, icd: seq<Byte>, bytes: seq<Byte>, cdb: seq<Byte>, x: Situation)
    requires bytes != [] && |bytes| == CommandLength(bytes[0]) && bytes[0] != 0x1f && bytes[|bytes| - 1] == 0
    requires |cdb| == 16 && PutsOut(host, icd, bytes) && Flushes(cdb, x)
    ensures AsksForFlush(host, cdb, x)
  {
    hide Flushes;
    var p, n := |icd|, |bytes|;
    var all := icd + bytes;
    assert host[..|all|] == all;
    assert host[p] == all[p] == bytes[0] && host[p + n - 1] == all[p + n - 1] == bytes[n - 1];
    assert icd == [0x1f] ==> host[0] == all[0];
    assert CommandStart(host) == p;
  }

  lemma SynchronizeFlushes(host: seq<Byte>, icd: seq<Byte>, bytes: seq<Byte>, cdb: seq<Byte>, x: Situation, plan: Plan,
                           rest: seq<Byte>, linked: bool, flag: bool)
    requires (|bytes| == 10 && bytes[0] == 0x35) || (|bytes| == 16 && bytes[0] == 0x91)
    requires bytes[1] < 32 && bytes[|bytes| - 1] == 0 && |cdb| == 16
    requires PutsOut(host, icd, bytes) && Understood(host, cdb, x, plan, rest, linked, flag)
    requires x.identifiedLun in {-1, 0}
    ensures AsksForFlush(host, cdb, x)
  {
    hide Understood;
    hide AsksForFlush;
    CommandIsTaken(host, icd, bytes, cdb, x, plan, rest, linked, flag);
    assert cdb[0] == cdb[..|bytes|][0] && cdb[1] == cdb[..|bytes|][1];
    FlushIsAskedFor(host, icd, bytes, cdb, x);
  }

  lemma VerifyFlushes(host: seq<Byte>, icd: seq<Byte>, bytes: seq<Byte>, cdb: seq<Byte>, x: Situation, plan: Plan,
                      rest: seq<Byte>, linked: bool, flag: bool, start: nat, count: nat)
    requires IsVerify(bytes, start, count) && PutsOut(host, icd, bytes) && |cdb| == 16
    requires Understood(host, cdb, x, plan, rest, linked, flag)
    requires x.identifiedLun in {-1, 0} && x.ready.None? && 0 < x.blocks < LIMIT64 && start + count <= x.blocks
    ensures AsksForFlush(host, cdb, x)
  {
    hide Understood;
    hide AsksForFlush;
    VerifyBytes(bytes, start, count);
    CommandIsTaken(host, icd, bytes, cdb, x, plan, rest, linked, flag);
    VerifyFields(bytes, start, count, cdb);
    hide IsVerify;
    RangeOnDisk(start, count, x.blocks);
    AcceptedVerifyFlushes(cdb, x, FormOf(bytes));
    FlushIsAskedFor(host, icd, bytes, cdb, x);
  }

  lemma AcceptedVerifyFlushes(cdb: seq<Byte>, x: Situation, m: AccessMode)
    requires |cdb| == 16 && RequestOf(cdb[0]) == VerifyBlocks(m) && LunOf(-1, cdb) == 0
    requires x.identifiedLun in {-1, 0} && x.ready.None? && PassesCheck(StartOf(cdb, m), CountOf(cdb, m), x.blocks)
    ensures Flushes(cdb, x)
  {
    hide StartOf;
    hide CountOf;
    hide PassesCheck;
  }
}
