// The phase and transfer machine of a target with one disk, LUN 0.
module Controllers {
  import opened Basics
  import opened SignalWord
  import opened HandshakeOutcomes
  import opened TargetBuses
  import opened FlatImage
  import opened Disks
  import opened Requests
  import opened CommandAnswers
  import opened Transfers
  import opened CommandResults

  class Controller {
    const bus: Bus
    const disk: Disk
    var phase: BusPhase
    var offset: nat
    var remainingLength: nat
    var currentLength: nat
    var chunkSize: nat
    var buffer: seq<Byte>
    var status: Byte
    var sense: Sense
    var cdb: seq<Byte>
    var identifiedLun: int
    var linked: bool
    var flag: bool
    var atnMsg: bool
    var msgBytes: seq<Byte>
    ghost var job: Job
    ghost var messages: seq<Byte>    // all message bytes taken so far

    ghost function Now(): Snapshot
      reads this`phase, this`offset, this`remainingLength, this`currentLength, this`chunkSize, this`buffer
      reads this`status, this`sense, this`linked, this`flag, this`atnMsg, bus, disk, disk.file`failures
    {
      Snapshot(phase, Counters(offset, remainingLength, currentLength, chunkSize), buffer, status, sense, linked, flag,
               atnMsg,
           bus.lines, bus.toHost, bus.fromHost, bus.faults,
           disk.blockSize, disk.blockCount, disk.sectorTransferCount, disk.nextSector, disk.Usable(), disk.image,
           disk.file.failures)
    }

    // A command that has flushed the cache moves nothing, and unless a file access has failed the file is up to date.
    ghost predicate Synced()
      reads this`job, disk`image, disk.Footprint()
      reads if disk.diskCache != null then {disk.diskCache.cache} else {}
    {
      job.syncs ==> job.plan.Nothing? && (disk.file.failures == job.failures0 ==> disk.Saved())
    }

    ghost predicate Shape()
      reads this`cdb, this`job, disk`image, disk`sectorTransferCount, disk.Footprint()
      reads if disk.diskCache != null then {disk.diskCache.cache} else {}
    {
      && |cdb| == 16
      && disk.Valid() && this !in disk.Footprint() && bus !in disk.Footprint()
      && (disk.mode.LinuxOptimized? || disk.sectorTransferCount == 1)
      && Synced()
    }

    ghost predicate Valid()
      reads this, bus, disk, disk.file, disk.Footprint()
      reads if disk.diskCache != null then {disk.diskCache.cache} else {}
    {
      Shape() && Inv(Now(), job)
    }

    // A command that has been received on a bus that is busy, and has stayed on it
    ghost predicate Truthful()
      reads this`phase, this`job
    {
      phase.BusFreePhase? || phase.SelectionPhase? || job.busy
    }

    // As long as there has been no ABORT or BUS DEVICE RESET message, every command is on a busy bus.
    ghost predicate Honest()
      reads this`phase, this`job, this`messages, this`msgBytes
    {
      && (forall m :: m in msgBytes ==> m in messages)
      && (Leaves(messages) || Truthful())
    }

    twostate lemma StaysHonest()
      requires old(Honest()) && (old(Truthful()) ==> Truthful())
      requires msgBytes == old(msgBytes) && messages == old(messages)
      ensures Honest()
    {
    }

    // No message bytes have been taken yet, on a busy bus.
    twostate lemma BeginsHonestly()
      requires old(Honest()) && job.busy && msgBytes == [] && messages == old(messages)
      ensures Honest()
    {
    }

    // Message bytes have been taken on a busy bus.
    twostate lemma TakenHonestly(taken: seq<Byte>)
      requires old(Honest()) && job.busy && msgBytes == old(msgBytes) + taken && messages == old(messages) + taken
      ensures Honest()
    {
    }

    // The messages have been handled.
    twostate lemma HandledHonestly()
      requires old(Honest()) && (Leaves(msgBytes) || Truthful())
      requires msgBytes == old(msgBytes) && messages == old(messages)
      ensures Honest()
    {
    }

    constructor (b: Bus, d: Disk)
      requires d.Valid() && b.lines == {}
      requires d.mode.LinuxOptimized? || d.sectorTransferCount == 1
      requires b !in d.Footprint()
      ensures Valid() && phase.BusFreePhase? && bus == b && disk == d && job.progress.Idle?
      ensures Honest() && messages == []
    {
      bus, disk := b, d;
      phase, offset, remainingLength, currentLength, chunkSize := BusFreePhase, 0, 0, 0, 0;
      buffer, status, sense := seq(512, _ => 0), GOOD, Sense(NoSense, NoAdditionalSense);
      cdb, identifiedLun, linked, flag, atnMsg, msgBytes := seq(16, _ => 0), -1, false, false, false, [];
      job := Job(Idle, false, Nothing(None), 0, [], [], [], [], [], 0, false, false, false, 0, 0, 0, false);
      messages := [];
    }

    method SetCurrentLength(length: nat)
      modifies this`buffer, this`currentLength
      ensures currentLength == length <= |buffer| && |buffer| >= |old(buffer)| && old(buffer) <= buffer
      ensures length <= |old(buffer)| ==> buffer == old(buffer)
    {
      if length > |buffer| {
        buffer := buffer + seq(length - |buffer|, _ => 0);
      }
      currentLength := length;
    }

    method SetTransferSize(length: nat, size: nat)
      modifies this`remainingLength, this`chunkSize
      ensures remainingLength == length && chunkSize == Min(length, size)
    {
      remainingLength := length;
      chunkSize := if length < size then length else size;
    }

    method UpdateTransferLength(length: nat)
      requires length <= remainingLength
      modifies this`remainingLength, this`chunkSize
      ensures Now() == old(Now()).(k := Advance(old(Now()).k, length))
    {
      remainingLength := remainingLength - length;
      if remainingLength < chunkSize {
        chunkSize := remainingLength;
      }
    }

    method UpdateOffsetAndLength()
      modifies this`offset, this`currentLength
      ensures Now() == old(Now()).(k := Shift(old(Now()).k))
    {
      offset := offset + currentLength;
      currentLength := 0;
    }

    // The target changes the phase and drives its lines.
    method SetPhase(p: BusPhase)
      requires IsTransferPhase(p)
      modifies this`phase, bus`lines
      ensures Now() == old(Now()).(phase := p, lines := LinesFor(old(bus.lines), p))
    {
      phase := p;
      bus.ShowPhase(p);
    }

    // Status(), from another phase
    method EnterStatus()
      requires |buffer| >= 512
      modifies this`phase, this`offset, this`remainingLength, this`currentLength, this`chunkSize, this`buffer, bus`lines
      ensures StatusEntered(old(Now()), Now())
    {
      SetPhase(StatusPhase);
      offset := 0;
      SetCurrentLength(1);
      SetTransferSize(1, 1);
      buffer := buffer[0 := if linked && status == GOOD then INTERMEDIATE else status];
    }

    // MsgIn(), from another phase
    method EnterMsgIn()
      modifies this`phase, this`offset, bus`lines
      ensures Now() == old(Now()).(phase := MsgInPhase, lines := LinesFor(old(bus.lines), MsgInPhase),
                                   k := old(Now()).k.(offset := 0))
    {
      SetPhase(MsgInPhase);
      offset := 0;
    }

    // BusFree(), from another phase
    method LeaveBus()
      modifies this`phase, this`status, this`identifiedLun, this`atnMsg, bus`lines
      ensures Released(old(Now()), Now()) && Now().k == old(Now()).k && identifiedLun == -1
    {
      phase := BusFreePhase;
      bus.ShowBusFree();
      status := GOOD;
      identifiedLun := -1;
      atnMsg := false;
    }

    // The disk is out of reach of changes to the controller's own counters and the bus.
    twostate lemma ShapeKept()
      requires old(Shape()) && unchanged(old(disk.Footprint())) && |cdb| == 16
      requires disk.image == old(disk.image) && disk.sectorTransferCount == old(disk.sectorTransferCount)
      requires job.syncs ==> old(job.syncs) && job.plan == old(job.plan) && job.failures0 == old(job.failures0)
      ensures Shape() && disk.Footprint() == old(disk.Footprint())
    {
    }

    method Acquire()
      modifies bus`lines, bus`faults
      ensures Acquired(old(Now()), Now()) && (RST in old(bus.lines) ==> RST in bus.lines)
    {
      bus.InitiatorActs();
    }

    method EnterError(s: Sense)
      requires |buffer| >= 512
      modifies this`phase, this`offset, this`remainingLength, this`currentLength, this`chunkSize, this`buffer
      modifies this`status, this`sense, bus`lines
      ensures StatusEntered(old(Now()).(status := CHECK_CONDITION, sense := s), Now())
    {
      sense := s;
      status := CHECK_CONDITION;
      EnterStatus();
    }

    // Report an error, or leave the bus behind a reset or in a phase where nothing can be reported.
    method Error(s: Sense)
      requires |buffer| >= 512 && REQ !in bus.lines && !phase.BusFreePhase?
      modifies this`phase, this`offset, this`remainingLength, this`currentLength, this`chunkSize, this`buffer
      modifies this`status, this`sense, this`identifiedLun, this`atnMsg, bus`lines, bus`faults
      ensures Failed(old(Now()), Now(), s) || Left(old(Now()), Now())
      ensures Left(old(Now()), Now()) ==>
                bus.faults > old(bus.faults) || RST in old(bus.lines) || old(phase).StatusPhase?
                  || old(phase).MsgInPhase?
      ensures RST in old(bus.lines) ==> Left(old(Now()), Now()) && RST in bus.lines
      ensures old(phase).StatusPhase? || old(phase).MsgInPhase? ==> Left(old(Now()), Now()) && phase.BusFreePhase?
    {
      Acquire();
      ghost var u := Now();
      if RST in bus.lines || phase.StatusPhase? || phase.MsgInPhase? {
        LeaveBus();
        LeavingShows(old(Now()), u, Now());
        return;
      }
      EnterError(s);
      ErrorShows(old(Now()), u, Now(), s);
    }

    // A handshake has not moved everything.
    method BreakOff()
      requires |buffer| >= 512 && REQ !in bus.lines && !phase.BusFreePhase?
      modifies this`phase, this`offset, this`remainingLength, this`currentLength, this`chunkSize, this`buffer
      modifies this`status, this`sense, this`identifiedLun, this`atnMsg, bus`lines, bus`faults
      ensures Left(old(Now()), Now()) && RST in bus.lines
    {
      bus.SetLine(RST, true);
      Error(Sense(AbortedCommand, DataPhaseError));
    }

    method HandOver(bytes: seq<Byte>) returns (length: nat, ghost arrived: seq<Byte>)
      requires REQ !in bus.lines
      modifies bus`lines, bus`faults, bus`toHost
      ensures bus.faults >= old(bus.faults) && SendOutcome(bytes, length, arrived, bus.faults - old(bus.faults))
      ensures Now() == old(Now()).(toHost := bus.toHost, faults := bus.faults)
      ensures bus.toHost == old(bus.toHost) + Tagged(PhaseOfLines(old(bus.lines)), arrived)
    {
      hide SendOutcome;
      length := bus.TargetSendHandShake(bytes);
      arrived :| && SendOutcome(bytes, length, arrived, bus.faults - old(bus.faults))
                 && bus.toHost == old(bus.toHost) + Tagged(PhaseOfLines(old(bus.lines)), arrived);
      assert bus.lines == old(bus.lines);
    }

    // Send(), while there is something in the buffer
    method SendBuffer()
      requires |buffer| >= 512 && REQ !in bus.lines && !phase.BusFreePhase? && offset + currentLength <= |buffer|
      modifies this`phase, this`offset, this`remainingLength, this`currentLength, this`chunkSize, this`buffer
      modifies this`status, this`sense, this`identifiedLun, this`atnMsg, bus`lines, bus`faults, bus`toHost
      ensures bus.faults == old(bus.faults) ==> !phase.BusFreePhase?
      ensures phase.BusFreePhase? ==> RST in bus.lines
      ensures if phase.BusFreePhase? then Dropped(old(Now()), Now())
              else SentStep(old(Now()), Now()) && identifiedLun == old(identifiedLun)
    {
      hide SendOutcome;
      hide SentStep;
      hide Left;
      ghost var v := Now();
      var bytes := buffer[offset..offset + currentLength];
      var length, arrived := HandOver(bytes);
      ghost var u := Now();
      if length != currentLength {
        BreakOff();
        SentInVain(v, u, Now(), bytes, length, arrived);
        return;
      }
      UpdateOffsetAndLength();
      SentAll(v, u, bytes, length, arrived);
    }

    // Receive(), while something is expected
    method ReceiveBuffer() returns (ghost data: seq<Byte>)
      requires |buffer| >= 512 && REQ !in bus.lines && !phase.BusFreePhase? && offset + currentLength <= |buffer|
      modifies this`phase, this`offset, this`remainingLength, this`currentLength, this`chunkSize, this`buffer
      modifies this`status, this`sense, this`identifiedLun, this`atnMsg, bus`lines, bus`faults, bus`fromHost
      ensures bus.faults == old(bus.faults) ==> !phase.BusFreePhase?
      ensures if phase.BusFreePhase? then Dropped(old(Now()), Now()) else ReceivedStep(old(Now()), Now(), data)
    {
      ghost var v := Now();
      var bytes := bus.TargetReceiveHandShake(currentLength);
      OutcomeIsHeard(v.fromHost, currentLength, bytes, bus.faults - v.faults);
      data := bytes;
      assert bus.lines == v.lines || bus.lines == v.lines - {ATN};
      buffer := WriteAt(buffer, offset, bytes);
      if |bytes| != currentLength {
        BreakOff();
        return;
      }
      UpdateOffsetAndLength();
    }

    method DiskRead() returns (r: Option<seq<Byte>>, s: Sense)
      requires !job.syncs && Shape() && disk.nextSector + disk.sectorTransferCount <= disk.blockCount && disk.Usable()
      modifies disk`nextSector, disk`isReset, disk`isAttn, disk.Footprint()
      ensures Shape() && fresh(disk.Footprint() - old(disk.Footprint()))
      ensures disk.file.failures >= old(disk.file.failures)
      ensures Now() == old(Now()).(next := disk.nextSector, usable := disk.Usable(), failures := disk.file.failures)
      ensures r.Some? ==>
                && disk.Usable() && disk.nextSector == old(disk.nextSector) + disk.sectorTransferCount
                && |r.value| == disk.sectorTransferCount * disk.blockSize
                && IsSlice(r.value, disk.image, disk.blockSize, old(disk.nextSector), disk.sectorTransferCount)
      ensures r.None? ==> disk.file.failures > old(disk.file.failures) && s == READ_FAILED
    {
      r, s := disk.ReadData();
    }

    method DiskReadData() returns (e: Option<Sense>)
      requires !job.syncs && Shape() && disk.nextSector + disk.sectorTransferCount <= disk.blockCount && disk.Usable()
      requires disk.sectorTransferCount * disk.blockSize <= |buffer|
      modifies this`buffer, disk`nextSector, disk`isReset, disk`isAttn, disk.Footprint()
      ensures Shape() && fresh(disk.Footprint() - old(disk.Footprint()))
      ensures e.None? ==>
                var v, w := old(Now()), Now();
                && w == v.(buffer := w.buffer, next := v.next + v.chunkSectors, failures := w.failures)
                && w.failures >= v.failures && |w.buffer| == |v.buffer|
                && IsSlice(w.buffer[..v.chunkSectors * v.size], v.image, v.size, v.next, v.chunkSectors)
      ensures e.Some? ==>
                var v, w := old(Now()), Now();
                && w == v.(next := w.next, usable := w.usable, failures := w.failures)
                && w.failures > v.failures && e == Some(READ_FAILED)
    {
      hide Disk.Valid;
      hide Disk.Footprint;
      hide WriteAt;
      hide IsSlice;
      var r, s := DiskRead();
      if r.None? {
        return Some(s);
      }
      FrontOfWrite(buffer, r.value);
      buffer := WriteAt(buffer, 0, r.value);
      return None;
    }

    method DiskWriteData(length: nat) returns (e: Option<Sense>, ghost stored: nat)
      requires !job.syncs && Shape() && disk.nextSector + disk.sectorTransferCount <= disk.blockCount && disk.Usable()
      requires length == disk.sectorTransferCount * disk.blockSize <= |buffer| && length > 0
      modifies disk`nextSector, disk`isReset, disk`isAttn, disk`image, disk.Footprint()
      ensures Shape() && fresh(disk.Footprint() - old(disk.Footprint()))
      ensures stored <= length && (e.None? ==> stored == length)
      ensures var v, w := old(Now()), Now();
              && v.next * v.size + length <= |v.image|
              && w == v.(next := w.next, usable := w.usable, failures := w.failures,
                         image := WriteAt(v.image, v.next * v.size, v.buffer[..stored]))
              && w.failures >= v.failures
              && (e.None? ==> w.next == v.next + v.chunkSectors && w.usable)
              && (e.Some? ==> w.failures > v.failures && e == Some(WRITE_FAILED))
    {
      var data := buffer[..length];
      e, stored := disk.WriteData(data);
      assert data[..stored] == buffer[..stored];
    }

    // Error(), with a disk whose state is of no concern to it
    method Fail(s: Sense)
      requires Shape() && |buffer| >= 512 && REQ !in bus.lines && RST !in bus.lines
      requires !phase.BusFreePhase? && !phase.StatusPhase? && !phase.MsgInPhase?
      modifies this`phase, this`offset, this`remainingLength, this`currentLength, this`chunkSize, this`buffer
      modifies this`status, this`sense, this`identifiedLun, this`atnMsg, bus`lines, bus`faults
      ensures Shape() && disk.Footprint() == old(disk.Footprint())
      ensures Failed(old(Now()), Now(), s) || Dropped(old(Now()), Now())
    {
      hide Disk.Valid;
      Error(s);
      ShapeKept();
    }

    // Fetch the next chunk for the host.
    method TransferToHost()
      requires !job.syncs && Shape() && disk.nextSector + disk.sectorTransferCount <= disk.blockCount && disk.Usable()
      requires chunkSize == disk.sectorTransferCount * disk.blockSize <= remainingLength && chunkSize <= |buffer|
      requires |buffer| >= 512 && REQ !in bus.lines && RST !in bus.lines && phase.DataInPhase? && remainingLength != 0
      modifies this`phase, this`offset, this`remainingLength, this`currentLength, this`chunkSize, this`buffer
      modifies this`status, this`sense, this`identifiedLun, this`atnMsg, bus`lines, bus`faults
      modifies disk`nextSector, disk`isReset, disk`isAttn, disk.Footprint()
      ensures Shape() && fresh(disk.Footprint() - old(disk.Footprint()))
      ensures TransferredToHost(old(Now()), Now())
    {
      hide Disk.Valid;
      hide TransferredToHost;
      hide IsSlice;
      var e := DiskReadData();
      ghost var u := Now();
      if e.Some? {
        Fail(e.value);
        LeftFrom(old(Now()), u, Now());
      } else {
        OfferChunk();
        FetchedFrom(old(Now()), u, Now());
      }
    }

    method OfferChunk()
      requires Shape() && chunkSize <= remainingLength && chunkSize <= |buffer|
      modifies this`offset, this`currentLength, this`buffer
      ensures Shape() && disk.Footprint() == old(disk.Footprint())
      ensures Now() == old(Now()).(k := if remainingLength == 0 then old(Now()).k
                                        else old(Now()).k.(offset := 0, current := chunkSize))
    {
      hide Disk.Valid;
      if remainingLength != 0 {
        SetCurrentLength(if remainingLength < chunkSize then remainingLength else chunkSize);
        offset := 0;
      }
      ShapeKept();
    }

    // Send() with something in the buffer, in DATA IN, STATUS and MESSAGE IN
    method SendNow()
      requires Inv(Now(), job) && phase in {DataInPhase, StatusPhase, MsgInPhase} && currentLength != 0
      modifies this`phase, this`offset, this`remainingLength, this`currentLength, this`chunkSize, this`buffer, this`job
      modifies this`status, this`sense, this`identifiedLun, this`atnMsg, bus`lines, bus`faults, bus`toHost
      ensures Inv(Now(), job) && SameCommand(old(job), job) && Closer(old(Now()), Now())
    {
      hide Inv;
      hide SentStep;
      hide Dropped;
      hide Closer;
      hide SameCommand;
      hide AfterSending;
      ghost var v := Now();
      SendFits(v, job);
      SendBuffer();
      ghost var w := Now();
      SendGoesOn(v, job, w);
      job := if w.phase.BusFreePhase? then job else AfterSending(v, job);
    }

    // Send() behind a chunk of data: fetch the next one, or report the status.
    method FetchOrFinish()
      requires !job.syncs && Shape() && CanFetch(Now()) && phase.DataInPhase?
      modifies this`phase, this`offset, this`remainingLength, this`currentLength, this`chunkSize, this`buffer
      modifies this`status, this`sense, this`identifiedLun, this`atnMsg, bus`lines, bus`faults
      modifies disk`nextSector, disk`isReset, disk`isAttn, disk.Footprint()
      ensures Shape() && fresh(disk.Footprint() - old(disk.Footprint()))
      ensures Fetched(old(Now()), Now())
    {
      hide Disk.Valid;
      hide TransferredToHost;
      hide StatusEntered;
      hide CanFetch;
      FetchShows(Now());
      UpdateTransferLength(chunkSize);
      if remainingLength != 0 {
        TransferToHost();
      } else {
        EnterStatus();
      }
    }

    // DataIn() behind a chunk
    method NextDataIn()
      requires Shape() && Inv(Now(), job) && phase.DataInPhase? && currentLength == 0 && RST !in bus.lines
      modifies this`phase, this`offset, this`remainingLength, this`currentLength, this`chunkSize, this`buffer, this`job
      modifies this`status, this`sense, this`identifiedLun, this`atnMsg, bus`lines, bus`faults
      modifies disk`nextSector, disk`isReset, disk`isAttn, disk.Footprint()
      ensures Shape() && fresh(disk.Footprint() - old(disk.Footprint()))
      ensures Inv(Now(), job) && SameCommand(old(job), job) && Closer(old(Now()), Now())
    {
      hide Inv;
      hide Disk.Valid;
      hide Fetched;
      ghost var v, j := Now(), job;
      ReadMore(v, j);
      FetchOrFinish();
      FetchKeepsInv(v, j, Now());
      job := AfterFetch(j, Now());
    }

    method SetUpNextChunk(length: nat)
      requires length <= remainingLength && chunkSize <= |buffer|
      modifies this`offset, this`remainingLength, this`currentLength, this`chunkSize, this`buffer
      ensures Now() == old(Now()).(k := NextChunk(old(Now()).k, length))
    {
      UpdateTransferLength(length);
      SetCurrentLength(chunkSize);
      offset := 0;
    }

    // TransferFromHost()
    method TransferFromHost(length: nat) returns (ok: bool, ghost stored: nat)
      requires !job.syncs && Shape() && CanStore(Now()) && phase.DataOutPhase? && length == chunkSize
      modifies this`phase, this`offset, this`remainingLength, this`currentLength, this`chunkSize, this`buffer
      modifies this`status, this`sense, this`identifiedLun, this`atnMsg, bus`lines, bus`faults
      modifies disk`nextSector, disk`isReset, disk`isAttn, disk`image, disk.Footprint()
      ensures Shape() && fresh(disk.Footprint() - old(disk.Footprint()))
      ensures stored <= length && (ok ==> stored == length)
      ensures if ok then ChunkWritten(old(Now()), Now()) else StoreFailed(old(Now()), Now(), stored)
    {
      hide Disk.Valid;
      hide StoreFailed;
      hide ChunkWritten;
      var e;
      e, stored := DiskWriteData(length);
      ghost var v, u := old(Now()), Now();
      if e.Some? {
        Fail(e.value);
        StoreFailedShows(v, u, Now(), stored);
        return false, stored;
      }
      SetUpNextChunk(length);
      ChunkWrittenShows(v, u, Now());
      ok := true;
    }

    // Receive() behind a chunk of data
    method StoreOrFinish() returns (ghost stored: nat)
      requires !job.syncs && Shape() && CanStore(Now()) && phase.DataOutPhase?
      modifies this`phase, this`offset, this`remainingLength, this`currentLength, this`chunkSize, this`buffer
      modifies this`status, this`sense, this`identifiedLun, this`atnMsg, bus`lines, bus`faults
      modifies disk`nextSector, disk`isReset, disk`isAttn, disk`image, disk.Footprint()
      ensures Shape() && fresh(disk.Footprint() - old(disk.Footprint()))
      ensures Stored(old(Now()), Now(), stored)
    {
      hide Disk.Valid;
      hide StoreFailed;
      hide StatusEntered;
      var length := if chunkSize < remainingLength then chunkSize else remainingLength;
      var ok;
      ok, stored := TransferFromHost(length);
      ghost var u := Now();
      if ok && remainingLength == 0 {
        EnterStatus();
      }
    }

    // DataOut() behind a chunk
    method NextDataOut()
      requires Shape() && Inv(Now(), job) && phase.DataOutPhase? && currentLength == 0 && RST !in bus.lines
      modifies this`phase, this`offset, this`remainingLength, this`currentLength, this`chunkSize, this`buffer, this`job
      modifies this`status, this`sense, this`identifiedLun, this`atnMsg, bus`lines, bus`faults
      modifies disk`nextSector, disk`isReset, disk`isAttn, disk`image, disk.Footprint()
      ensures Shape() && fresh(disk.Footprint() - old(disk.Footprint()))
      ensures Inv(Now(), job) && SameCommand(old(job), job) && Closer(old(Now()), Now())
    {
      hide Inv;
      hide Disk.Valid;
      hide Stored;
      ghost var v, j := Now(), job;
      WriteMore(v, j);
      ghost var stored := StoreOrFinish();
      StoreKeepsInv(v, j, Now(), stored);
      job := AfterStore(v, j, Now(), stored);
    }

    // Receive() with something expected, in DATA OUT and MESSAGE OUT
    method ReceiveNow() returns (ghost data: seq<Byte>)
      requires Inv(Now(), job) && phase in {DataOutPhase, MsgOutPhase} && currentLength != 0
      modifies this`phase, this`offset, this`remainingLength, this`currentLength, this`chunkSize, this`buffer, this`job
      modifies this`status, this`sense, this`identifiedLun, this`atnMsg, bus`lines, bus`faults, bus`fromHost
      ensures Inv(Now(), job) && SameCommand(old(job), job)
      ensures old(phase).DataOutPhase? ==> Closer(old(Now()), Now())
    {
      hide Inv;
      hide ReceivedStep;
      hide Dropped;
      hide Closer;
      hide SameCommand;
      hide AfterReceiving;
      ghost var v, j := Now(), job;
      ReceiveFits(v, j);
      data := ReceiveBuffer();
      ghost var w := Now();
      ReceiveGoesOn(v, j, w, data);
      job := if w.phase.BusFreePhase? then j else AfterReceiving(v, j, data);
    }

    method EnterMessage()
      requires |buffer| >= 512 && chunkSize <= remainingLength
      modifies this`phase, this`offset, this`remainingLength, this`currentLength, this`chunkSize, this`buffer, bus`lines
      ensures MessageEntered(old(Now()), Now())
    {
      UpdateTransferLength(chunkSize);
      SetCurrentLength(1);
      SetTransferSize(1, 1);
      buffer := buffer[0 := if !linked then COMMAND_COMPLETE
                            else if flag then LINKED_COMMAND_COMPLETE_WITH_FLAG else LINKED_COMMAND_COMPLETE];
      EnterMsgIn();
    }

    // Status() behind its byte: the message
    method NextStatus()
      requires Inv(Now(), job) && phase.StatusPhase? && currentLength == 0
      modifies this`phase, this`offset, this`remainingLength, this`currentLength, this`chunkSize, this`buffer, bus`lines
      ensures Inv(Now(), job) && Closer(old(Now()), Now())
    {
      hide Inv;
      hide MessageEntered;
      ghost var v := Now();
      StatusByteSent(v, job);
      EnterMessage();
      StatusEnds(v, job, Now());
    }

    // MsgIn() behind the message of a command that is not linked: the end.
    method EndCommand()
      requires Inv(Now(), job) && phase.MsgInPhase? && currentLength == 0
      modifies this`phase, this`status, this`identifiedLun, this`atnMsg, this`job, bus`lines
      modifies this`remainingLength, this`chunkSize
      ensures Inv(Now(), job) && phase.BusFreePhase? && job == old(job).(progress := Finished)
      ensures Closer(old(Now()), Now())
    {
      hide Inv;
      ghost var v := Now();
      MessageByteSent(v, job);
      UpdateTransferLength(chunkSize);
      LeaveBus();
      CommandEnds(v, job, Now());
      job := job.(progress := Finished);
    }

    // The end of a command without data: its status.
    method Answer(e: Option<Sense>)
      requires InCommand(Now(), job) && (e.None? ==> status == GOOD) && job.plan == Nothing(None)
      modifies this`phase, this`offset, this`remainingLength, this`currentLength, this`chunkSize, this`buffer, this`job
      modifies this`status, this`sense, this`identifiedLun, this`atnMsg, bus`lines, bus`faults
      ensures Inv(Now(), job) && Begun(old(job), job, Nothing(e)) && !job.syncs
    {
      hide Inv;
      hide InCommand;
      ghost var v, j := Now(), job;
      InCommandShows(v, j);
      if e.Some? {
        Error(e.value);
        CommandAnswered(v, j, Now(), e.value);
        job := j.(plan := Nothing(e));
      } else {
        hide StatusEntered;
        EnterStatus();
        NothingEnds(v, j, Now());
        job := j.(success := true);
      }
    }

    // Answer, with a disk whose state is of no concern to it
    method Report(e: Option<Sense>)
      requires Shape() && InCommand(Now(), job) && (e.None? ==> status == GOOD) && job.plan == Nothing(None)
      modifies this`phase, this`offset, this`remainingLength, this`currentLength, this`chunkSize, this`buffer, this`job
      modifies this`status, this`sense, this`identifiedLun, this`atnMsg, bus`lines, bus`faults
      ensures Shape() && disk.Footprint() == old(disk.Footprint())
      ensures Inv(Now(), job) && Begun(old(job), job, Nothing(e)) && !job.syncs
    {
      hide Inv;
      hide InCommand;
      hide Disk.Valid;
      hide Begun;
      Answer(e);
      ShapeKept();
    }

    method TestUnitReady()
      requires Shape() && InCommand(Now(), job) && status == GOOD && job.plan == Nothing(None)
      modifies this`phase, this`offset, this`remainingLength, this`currentLength, this`chunkSize, this`buffer, this`job
      modifies this`status, this`sense, this`identifiedLun, this`atnMsg, bus`lines, bus`faults
      modifies disk`isReset, disk`isAttn
      ensures Shape() && disk.Footprint() == old(disk.Footprint())
      ensures Inv(Now(), job) && Begun(old(job), job, Nothing(old(disk.ReadyError())))
    {
      hide Inv;
      hide InCommand;
      hide Disk.Valid;
      hide Begun;
      var e := disk.CheckReady();
      CommandGoesOn(old(Now()), job, Now());
      Report(e);
    }

    // The range check of SEEK and VERIFY, which flushes the cache, and SYNCHRONIZE CACHE
    method FlushDisk()
      requires !job.syncs && Shape()
      modifies disk.Footprint()
      ensures Shape() && fresh(disk.Footprint() - old(disk.Footprint()))
      ensures Now() == old(Now()).(failures := disk.file.failures) && disk.file.failures >= old(disk.file.failures)
      ensures disk.file.failures == old(disk.file.failures) ==> disk.Saved()
    {
      disk.FlushCache();
    }

    method CheckRange(m: AccessMode, flush: bool) returns (e: Option<Sense>)
      requires !job.syncs && Shape()
      modifies disk`isReset, disk`isAttn, disk.Footprint()
      ensures Shape() && fresh(disk.Footprint() - old(disk.Footprint()))
      ensures Now() == old(Now()).(usable := Now().usable, failures := Now().failures)
      ensures Now().failures >= old(Now()).failures
      ensures Nothing(e) == CheckOnly(RangeAnswer(old(disk.ReadyError()), cdb, m, disk.blockCount))
      ensures flush && e.None? && disk.file.failures == old(disk.file.failures) ==> disk.Saved()
    {
      hide RangeAnswer;
      hide Disk.Valid;
      hide Disk.Saved;
      var b := disk.CheckAndGetStartAndCount(cdb, m);
      ShapeKept();
      if b.Refused? {
        return Some(b.sense);
      }
      if flush {
        FlushDisk();
      }
      return None;
    }

    method SeekOrVerify(m: AccessMode, flush: bool)
      requires Shape() && InCommand(Now(), job) && status == GOOD && job.plan == Nothing(None)
      modifies this`phase, this`offset, this`remainingLength, this`currentLength, this`chunkSize, this`buffer, this`job
      modifies this`status, this`sense, this`identifiedLun, this`atnMsg, bus`lines, bus`faults
      modifies disk`isReset, disk`isAttn, disk.Footprint()
      ensures Shape() && fresh(disk.Footprint() - old(disk.Footprint()))
      ensures Inv(Now(), job)
      ensures Begun(old(job), job, CheckOnly(RangeAnswer(old(disk.ReadyError()), cdb, m, disk.blockCount)))
      ensures flush && !RangeAnswer(old(disk.ReadyError()), cdb, m, disk.blockCount).Refused? ==> job.syncs
    {
      hide Inv;
      hide InCommand;
      hide Disk.Valid;
      hide Disk.Saved;
      hide Begun;
      hide RangeAnswer;
      InCommandShows(Now(), job);
      var e := CheckRange(m, flush);
      CommandGoesOn(old(Now()), job, Now());
      if flush && e.None? {
        ReportFlush(old(Now()));
      } else {
        Report(e);
      }
    }

    // The end of a command that has flushed the cache
    method ReportFlush(ghost v: Snapshot)
      requires Shape() && InCommand(v, job) && InCommand(Now(), job) && status == GOOD && job.plan == Nothing(None)
      requires disk.file.failures >= v.failures && (disk.file.failures == v.failures ==> disk.Saved())
      modifies this`phase, this`offset, this`remainingLength, this`currentLength, this`chunkSize, this`buffer, this`job
      modifies this`status, this`sense, this`identifiedLun, this`atnMsg, bus`lines, bus`faults
      ensures Shape() && disk.Footprint() == old(disk.Footprint())
      ensures Inv(Now(), job) && Begun(old(job), job, Nothing(None)) && job.syncs
    {
      hide Inv;
      hide InCommand;
      hide Disk.Valid;
      hide Disk.Saved;
      hide Begun;
      CommandFailures(v, job);
      Report(None);
      FlushIsOnRecord(Now(), old(job), job);
      job := job.(syncs := true);
      assert Synced();
    }

    method SynchronizeCache()
      requires Shape() && InCommand(Now(), job) && status == GOOD && job.plan == Nothing(None)
      modifies this`phase, this`offset, this`remainingLength, this`currentLength, this`chunkSize, this`buffer, this`job
      modifies this`status, this`sense, this`identifiedLun, this`atnMsg, bus`lines, bus`faults, disk.Footprint()
      ensures Shape() && fresh(disk.Footprint() - old(disk.Footprint()))
      ensures Inv(Now(), job) && Begun(old(job), job, Nothing(None)) && job.syncs
    {
      hide Inv;
      hide InCommand;
      hide Disk.Valid;
      hide Disk.Saved;
      hide Begun;
      InCommandShows(Now(), job);
      FlushDisk();
      CommandGoesOn(old(Now()), job, Now());
      ReportFlush(old(Now()));
    }

    // The disk's range and the transfer counters of a READ or WRITE
    method SetUpRange(start: nat, count: nat)
      requires !job.syncs && Shape() && 0 < count && start + count <= disk.blockCount
      modifies this`remainingLength, this`chunkSize, disk`nextSector, disk`sectorTransferCount
      ensures Shape() && disk.sectorTransferCount == disk.ChunkSectors(count)
      ensures Now() == WithRange(old(Now()), start, count, disk.sectorTransferCount)
      ensures start * disk.blockSize + count * disk.blockSize <= |disk.image|
      ensures 0 < chunkSize == disk.sectorTransferCount * disk.blockSize <= count * disk.blockSize
    {
      disk.RangeFits(start, count);
      PartOfMultiple(disk.ChunkSectors(count), count, disk.blockSize);
      disk.SetRange(start, count);
      SetTransferSize(count * disk.blockSize, disk.sectorTransferCount * disk.blockSize);
    }

    // The buffer takes all data of a READ.
    method PrepareRead(start: nat, count: nat)
      requires !job.syncs && Shape() && 0 < count && start + count <= disk.blockCount && disk.Usable()
      requires |buffer| >= 512
      modifies this`remainingLength, this`chunkSize, this`currentLength, this`buffer
      modifies disk`nextSector, disk`sectorTransferCount
      ensures Shape() && disk.sectorTransferCount == disk.ChunkSectors(count)
      ensures ReadReady(old(Now()), Now(), start, count)
    {
      assert 0 < disk.blockSize;
      hide Disk.Valid;
      SetUpRange(start, count);
      SetCurrentLength(count * disk.blockSize);
    }

    method SetUpRead(start: nat, count: nat) returns (e: Option<Sense>)
      requires !job.syncs && Shape() && 0 < count && start + count <= disk.blockCount && disk.Usable()
      requires |buffer| >= 512
      modifies this`remainingLength, this`chunkSize, this`currentLength, this`buffer
      modifies disk`nextSector, disk`sectorTransferCount, disk`isReset, disk`isAttn, disk.Footprint()
      ensures Shape() && fresh(disk.Footprint() - old(disk.Footprint()))
      ensures disk.sectorTransferCount == disk.ChunkSectors(count)
      ensures ReadSetUp(old(Now()), Now(), start, count, e)
    {
      hide Disk.Valid;
      hide IsSlice;
      hide ReadSetUp;
      PrepareRead(start, count);
      ghost var m := Now();
      ReadyShows(old(Now()), m, start, count);
      hide ReadReady;
      e := DiskReadData();
      FirstChunkRead(old(Now()), m, Now(), start, count, e);
    }

    method EnterDataIn()
      requires !job.syncs && Shape() && disk.sectorTransferCount * disk.blockSize <= |buffer|
      modifies this`phase, this`offset, this`currentLength, this`buffer, bus`lines
      ensures Shape() && disk.Footprint() == old(disk.Footprint())
      ensures Now() == old(Now()).(phase := DataInPhase, lines := LinesFor(old(bus.lines), DataInPhase),
                                   k := old(Now()).k.(offset := 0,
                                                      current := disk.sectorTransferCount * disk.blockSize))
    {
      hide Disk.Valid;
      SetCurrentLength(disk.sectorTransferCount * disk.blockSize);
      SetPhase(DataInPhase);
      offset := 0;
      ShapeKept();
    }

    method BeginRead(start: nat, count: nat)
      requires Shape() && InCommand(Now(), job) && status == GOOD && job.plan == Nothing(None)
      requires 0 < count && start + count <= disk.blockCount && disk.Usable()
      modifies this`phase, this`offset, this`remainingLength, this`currentLength, this`chunkSize, this`buffer, this`job
      modifies this`status, this`sense, this`identifiedLun, this`atnMsg, bus`lines, bus`faults
      modifies disk`nextSector, disk`sectorTransferCount, disk`isReset, disk`isAttn, disk.Footprint()
      ensures Shape() && fresh(disk.Footprint() - old(disk.Footprint()))
      ensures Inv(Now(), job) && Begun(old(job), job, Reading(start, count))
    {
      hide Inv;
      hide InCommand;
      hide Disk.Valid;
      hide Begun;
      hide Now;
      EnterRead(start, count);
      job := job.(plan := Reading(start, count));
      assert Synced();
    }

    // The first chunk, or the error of the first access
    method EnterRead(start: nat, count: nat)
      requires Shape() && InCommand(Now(), job) && status == GOOD && job.plan == Nothing(None)
      requires 0 < count && start + count <= disk.blockCount && disk.Usable()
      modifies this`phase, this`offset, this`remainingLength, this`currentLength, this`chunkSize, this`buffer
      modifies this`status, this`sense, this`identifiedLun, this`atnMsg, bus`lines, bus`faults
      modifies disk`nextSector, disk`sectorTransferCount, disk`isReset, disk`isAttn, disk.Footprint()
      ensures Shape() && fresh(disk.Footprint() - old(disk.Footprint())) && !job.syncs
      ensures Inv(Now(), job.(plan := Reading(start, count)))
      ensures Begun(job, job.(plan := Reading(start, count)), Reading(start, count))
    {
      hide Inv;
      hide InCommand;
      hide Disk.Valid;
      hide Begun;
      hide ReadSetUp;
      ghost var v, j := Now(), job;
      InCommandShows(v, j);
      var e := SetUpRead(start, count);
      ghost var u := Now();
      ReadSetUpShows(v, u, start, count, e);
      if e.Some? {
        Fail(e.value);
        ReadSetUpFails(v, j, u, Now(), start, count, e);
      } else {
        EnterDataIn();
        ReadSetUpBegins(v, j, u, Now(), start, count);
      }
    }

    method BeginWrite(start: nat, count: nat)
      requires Shape() && InCommand(Now(), job) && status == GOOD && job.plan == Nothing(None)
      requires job.host == bus.fromHost
      requires 0 < count && start + count <= disk.blockCount && disk.Usable()
      modifies this`phase, this`offset, this`remainingLength, this`currentLength, this`chunkSize, this`buffer, this`job
      modifies disk`nextSector, disk`sectorTransferCount, bus`lines
      ensures Shape() && disk.Footprint() == old(disk.Footprint())
      ensures Inv(Now(), job) && Begun(old(job), job, Writing(start, count))
    {
      hide Inv;
      hide InCommand;
      hide Disk.Valid;
      hide Begun;
      ghost var v, j := Now(), job;
      InCommandShows(v, j);
      SetUpRange(start, count);
      ghost var u := Now();
      EnterDataOut();
      WriteSetUpBegins(v, j, u, Now(), start, count);
      job := j.(plan := Writing(start, count));
    }

    method EnterDataOut()
      requires !job.syncs && Shape()
      modifies this`phase, this`offset, this`currentLength, this`buffer, bus`lines
      ensures Shape() && disk.Footprint() == old(disk.Footprint())
      ensures Now() == old(Now()).(phase := DataOutPhase, lines := LinesFor(old(bus.lines), DataOutPhase),
                                   buffer := Now().buffer,
                                   k := old(Now()).k.(offset := 0,
                                                      current := disk.sectorTransferCount * disk.blockSize))
      ensures |buffer| >= |old(buffer)| && disk.sectorTransferCount * disk.blockSize <= |buffer|
    {
      hide Disk.Valid;
      SetCurrentLength(disk.sectorTransferCount * disk.blockSize);
      SetPhase(DataOutPhase);
      offset := 0;
      ShapeKept();
    }

    ghost function Facing(): Situation
      reads this`identifiedLun, disk`isReset, disk`isAttn, disk`isReady, disk`isProtected
    {
      Situation(identifiedLun, disk.ReadyError(), disk.isProtected, disk.blockSize, disk.blockCount)
    }

    // READ and WRITE, with a range that passed the check or not
    method BeginTransfer(b: Begin, write: bool)
      requires Shape() && InCommand(Now(), job) && status == GOOD && job.plan == Nothing(None)
      requires job.host == bus.fromHost && (!b.Refused? ==> disk.Usable()) && (b.Transfer? ==> b.count > 0)
      modifies this`phase, this`offset, this`remainingLength, this`currentLength, this`chunkSize, this`buffer, this`job
      modifies this`status, this`sense, this`identifiedLun, this`atnMsg, bus`lines, bus`faults
      modifies disk`nextSector, disk`sectorTransferCount, disk`isReset, disk`isAttn, disk.Footprint()
      ensures Shape() && fresh(disk.Footprint() - old(disk.Footprint()))
      ensures Inv(Now(), job) && Begun(old(job), job, PlanOfBegin(b, old(Facing()), write))
    {
      hide Inv;
      hide InCommand;
      hide Disk.Valid;
      hide Begun;
      hide Now;
      if b.Transfer? && IsModelled(b.start, b.count, Situation(0, None, false, disk.blockSize, disk.blockCount)) {
        if write {
          BeginWrite(b.start, b.count);
        } else {
          BeginRead(b.start, b.count);
        }
      } else if b.Transfer? {
        EndAnyWay();
      } else {
        Report(if b.Refused? then Some(b.sense) else None);
      }
    }

    // The preconditions of READ and WRITE
    method AskRange(m: AccessMode, write: bool) returns (b: Begin)
      requires !job.syncs && Shape() && m in {RW6, RW10, RW16}
      modifies disk`isReset, disk`isAttn
      ensures Shape() && disk.Footprint() == old(disk.Footprint())
      ensures Now() == old(Now()).(usable := Now().usable)
      ensures b == TransferAnswer(old(Facing()), cdb, m, write)
      ensures (!b.Refused? ==> disk.Usable()) && (b.Transfer? ==> b.count > 0)
    {
      hide RangeAnswer;
      hide Disk.Valid;
      RangeAnswerShows(disk.ReadyError(), cdb, m, disk.blockCount);
      // CheckWritePreconditions
      if write && disk.isProtected {
        return Refused(PROTECTED);
      }
      b := disk.CheckAndGetStartAndCount(cdb, m);
      ShapeKept();
    }

    method ReadOrWrite(m: AccessMode, write: bool)
      requires Shape() && InCommand(Now(), job) && status == GOOD && job.plan == Nothing(None)
      requires job.host == bus.fromHost && m in {RW6, RW10, RW16}
      modifies this`phase, this`offset, this`remainingLength, this`currentLength, this`chunkSize, this`buffer, this`job
      modifies this`status, this`sense, this`identifiedLun, this`atnMsg, bus`lines, bus`faults
      modifies disk`nextSector, disk`sectorTransferCount, disk`isReset, disk`isAttn, disk.Footprint()
      ensures Shape() && fresh(disk.Footprint() - old(disk.Footprint()))
      ensures Inv(Now(), job)
      ensures Begun(old(job), job, PlanOfBegin(TransferAnswer(old(Facing()), cdb, m, write), old(Facing()), write))
    {
      hide Inv;
      hide InCommand;
      hide Disk.Valid;
      hide Begun;
      hide TransferAnswer;
      InCommandShows(Now(), job);
      var b := AskRange(m, write);
      CommandGoesOn(old(Now()), job, Now());
      assert PlanOfBegin(b, Facing(), write) == PlanOfBegin(b, old(Facing()), write);
      hide Now;
      hide PlanOfBegin;
      BeginTransfer(b, write);
    }

    method Dispatch()
      requires Shape() && InCommand(Now(), job) && status == GOOD && job.plan == Nothing(None)
      requires job.host == bus.fromHost && LunOf(identifiedLun, cdb) == 0
      modifies this`phase, this`offset, this`remainingLength, this`currentLength, this`chunkSize, this`buffer, this`job
      modifies this`status, this`sense, this`identifiedLun, this`atnMsg, bus`lines, bus`faults
      modifies disk`nextSector, disk`sectorTransferCount, disk`isReset, disk`isAttn, disk.Footprint()
      ensures Shape() && fresh(disk.Footprint() - old(disk.Footprint()))
      ensures Inv(Now(), job) && Begun(old(job), job, PlanOf(cdb, old(Facing())))
      ensures Flushes(cdb, old(Facing())) ==> job.syncs
    {
      hide Inv;
      hide InCommand;
      hide Disk.Valid;
      hide Begun;
      hide RangeAnswer;
      hide TransferAnswer;
      hide PlanOfBegin;
      hide Now;
      match RequestOf(cdb[0])
      case TestUnitReady => TestUnitReady();
      case Synchronize => SynchronizeCache();
      case Seek(m) => SeekOrVerify(m, false);
      case VerifyBlocks(m) => SeekOrVerify(m, true);
      case ReadBlocks(m) => ReadOrWrite(m, false);
      case WriteBlocks(m) => ReadOrWrite(m, true);
      case Elsewhere => EndAnyWay();
      case Unsupported => Report(Some(BAD_OPCODE));
    }

    // Nothing is promised for the command.
    method EndAnyWay()
      requires Shape() && InCommand(Now(), job) && job.plan == Nothing(None)
      modifies this`phase, this`offset, this`remainingLength, this`currentLength, this`chunkSize, this`buffer, this`job
      modifies this`status, this`sense, this`identifiedLun, this`atnMsg, bus`lines, bus`faults
      ensures Shape() && disk.Footprint() == old(disk.Footprint())
      ensures Inv(Now(), job) && Begun(old(job), job, Unmodelled)
    {
      hide Disk.Valid;
      hide Inv;
      hide InCommand;
      hide Begun;
      hide Now;
      Report(Some(BAD_OPCODE));
      NothingIsPromised(Now(), old(job), job, Some(BAD_OPCODE));
      job := job.(plan := Unmodelled);
    }

    method ResetTransfer()
      modifies this`offset, this`remainingLength, this`currentLength, this`chunkSize, this`buffer
      ensures Now() == old(Now()).(k := Counters(0, 0, 0, 0))
    {
      SetCurrentLength(0);
      offset := 0;
      SetTransferSize(0, 0);
    }

    method ResetStatus()
      modifies this`status, this`sense
      ensures Now() == old(Now()).(status := GOOD, sense := Sense(NoSense, NoAdditionalSense))
    {
      status := GOOD;
      sense := Sense(NoSense, NoAdditionalSense);
    }

    // The commands of the disk are those of LUN 0.
    method ExecuteOnLun()
      requires Shape() && InCommand(Now(), job) && job.plan == Nothing(None) && job.host == bus.fromHost
      modifies this`phase, this`offset, this`remainingLength, this`currentLength, this`chunkSize, this`buffer, this`job
      modifies this`status, this`sense, this`identifiedLun, this`atnMsg, bus`lines, bus`faults
      modifies disk`nextSector, disk`sectorTransferCount, disk`isReset, disk`isAttn, disk.Footprint()
      ensures Shape() && fresh(disk.Footprint() - old(disk.Footprint()))
      ensures Inv(Now(), job) && Begun(old(job), job, PlanOf(cdb, old(Facing())))
      ensures Flushes(cdb, old(Facing())) ==> job.syncs
    {
      hide Inv;
      hide InCommand;
      hide Disk.Valid;
      hide Begun;
      hide Flushes;
      hide PlanOf;
      hide AnswersForAnyLun;
      if AnswersForAnyLun(cdb[0]) || LunOf(identifiedLun, cdb) != 0 {
        EndWithoutDisk();
        return;
      }
      ResetStatus();
      CommandGoesOn(old(Now()), job, Now());
      Dispatch();
    }

    // A command that is not for LUN 0, or that any LUN answers
    method EndWithoutDisk()
      requires Shape() && InCommand(Now(), job) && job.plan == Nothing(None)
      requires AnswersForAnyLun(cdb[0]) || LunOf(identifiedLun, cdb) != 0
      modifies this`phase, this`offset, this`remainingLength, this`currentLength, this`chunkSize, this`buffer, this`job
      modifies this`status, this`sense, this`identifiedLun, this`atnMsg, bus`lines, bus`faults
      ensures Shape() && disk.Footprint() == old(disk.Footprint())
      ensures Inv(Now(), job) && Begun(old(job), job, PlanOf(cdb, old(Facing()))) && !Flushes(cdb, old(Facing()))
    {
      hide Inv;
      hide InCommand;
      hide Disk.Valid;
      hide Begun;
      hide Flushes;
      hide PlanOf;
      FlushIsForDisk(cdb, Facing());
      PlanByLun(cdb, Facing());
      if AnswersForAnyLun(cdb[0]) {
        EndAnyWay();
      } else {
        Report(Some(BAD_LUN));
      }
    }

    method Execute()
      requires Shape() && InCommand(Now(), job) && job.plan == Nothing(None) && job.host == bus.fromHost
      modifies this`phase, this`offset, this`remainingLength, this`currentLength, this`chunkSize, this`buffer, this`job
      modifies this`status, this`sense, this`identifiedLun, this`atnMsg, bus`lines, bus`faults
      modifies disk`nextSector, disk`sectorTransferCount, disk`isReset, disk`isAttn, disk.Footprint()
      ensures Shape() && fresh(disk.Footprint() - old(disk.Footprint()))
      ensures Inv(Now(), job) && Begun(old(job), job, PlanOf(cdb, old(Facing())))
      ensures Flushes(cdb, old(Facing())) ==> job.syncs
    {
      hide Inv;
      hide InCommand;
      hide Disk.Valid;
      hide Begun;
      hide Flushes;
      hide RequestOf;
      hide RangeAnswer;
      hide TransferAnswer;
      hide PlanOfBegin;
      hide PlanOf;
      ResetTransfer();
      CommandGoesOn(old(Now()), job, Now());
      ExecuteOnLun();
    }

    // The handshake of the COMMAND phase
    method ReceiveCommand() returns (r: Option<seq<Byte>>, ghost heard: seq<Byte>)
      requires REQ !in bus.lines
      modifies bus`lines, bus`faults, bus`fromHost
      ensures bus.faults >= old(bus.faults)
      ensures if r.None? then bus.faults > old(bus.faults) && RST in bus.lines && REQ !in bus.lines
              else
                && Now() == old(Now()).(fromHost := bus.fromHost, faults := bus.faults)
                && Hearing(old(bus.fromHost), heard, bus.fromHost, bus.faults - old(bus.faults))
                && HeardCommand(heard + bus.fromHost, r.value, bus.fromHost)
      ensures Now() == old(Now()).(lines := bus.lines, faults := bus.faults, fromHost := bus.fromHost)
    {
      ghost var before := bus.lines;
      r, heard := bus.TargetCommandHandShake();
      assert bus.lines == before;
      if r.None? {
        bus.SetLine(RST, true);
      }
    }

    // COMMAND phase: the bytes of the command, or a timeout that ends the command.
    method TakeCommand() returns (r: Option<seq<Byte>>, ghost heard: seq<Byte>)
      requires |buffer| >= 512 && REQ !in bus.lines && RST !in bus.lines && !atnMsg && phase.CommandPhase?
      requires Signals(Now(), job.busy) && job == NewJob(Now(), job.busy)
      modifies this`phase, this`offset, this`remainingLength, this`currentLength, this`chunkSize, this`buffer, this`job
      modifies this`status, this`sense, this`identifiedLun, this`atnMsg, bus`lines, bus`faults, bus`fromHost
      ensures bus.faults >= old(bus.faults)
      ensures r.None? ==> Inv(Now(), job) && job == old(job) && bus.faults > old(bus.faults)
      ensures r.Some? ==>
                && InCommand(Now(), job) && job == old(job).(host := bus.fromHost, faults1 := bus.faults)
                && identifiedLun == old(identifiedLun)
                && Hearing(old(bus.fromHost), heard, bus.fromHost, bus.faults - old(bus.faults))
                && HeardCommand(heard + bus.fromHost, r.value, bus.fromHost)
    {
      hide InCommand;
      hide Inv;
      hide HeardCommand;
      hide Hearing;
      ghost var v, j := Now(), job;
      r, heard := ReceiveCommand();
      if r.None? {
        ghost var u := Now();
        CommandTaken(v, v, j.busy);
        Error(Sense(AbortedCommand, CommandPhaseError));
        CommandTimesOut(v, u, Now(), j.busy);
      } else {
        CommandTaken(v, Now(), j.busy);
        job := job.(host := bus.fromHost, faults1 := bus.faults);
      }
    }

    method SetCdb(bytes: seq<Byte>)
      requires |cdb| == 16 && 0 < |bytes| <= 16
      modifies this`cdb, this`linked, this`flag
      ensures |cdb| == 16 && cdb[..|bytes|] == bytes
      ensures linked == IsLinked(bytes[|bytes| - 1]) && flag == HasFlag(bytes[|bytes| - 1])
    {
      cdb := bytes + cdb[|bytes|..];
      var control := cdb[|bytes| - 1];
      linked := control % 2 == 1;
      flag := control / 2 % 2 == 1;
    }

    // The CDB, and the link and flag bits of its control byte
    method TakeCdb(bytes: seq<Byte>)
      requires |cdb| == 16 && 0 < |bytes| <= 16 && InCommand(Now(), job)
      modifies this`cdb, this`linked, this`flag, this`job
      ensures |cdb| == 16 && cdb[..|bytes|] == bytes && linked == IsLinked(bytes[|bytes| - 1])
      ensures flag == HasFlag(bytes[|bytes| - 1])
      ensures InCommand(Now(), job) && job == old(job).(linked := linked, flag := flag)
    {
      hide InCommand;
      hide IsLinked;
      hide HasFlag;
      ghost var v := Now();
      SetCdb(bytes);
      ControlTaken(v, job, Now());
      job := job.(linked := linked, flag := flag);
    }

    // A known command, whose bytes have been taken
    method RunCdb(bytes: seq<Byte>)
      requires Shape() && InCommand(Now(), job) && job.plan == Nothing(None) && job.host == bus.fromHost
      requires |bytes| in {6, 10, 12, 16}
      modifies this`phase, this`offset, this`remainingLength, this`currentLength, this`chunkSize, this`buffer, this`job
      modifies this`status, this`sense, this`identifiedLun, this`atnMsg, bus`lines, bus`faults
      modifies this`cdb, this`linked, this`flag
      modifies disk`nextSector, disk`sectorTransferCount, disk`isReset, disk`isAttn, disk.Footprint()
      ensures Shape() && fresh(disk.Footprint() - old(disk.Footprint()))
      ensures Inv(Now(), job) && cdb[..|bytes|] == bytes
      ensures linked == IsLinked(bytes[|bytes| - 1]) && flag == HasFlag(bytes[|bytes| - 1])
      ensures Begun(old(job).(linked := linked, flag := flag), job,
                    if flag && !linked then Nothing(Some(BAD_FIELD)) else PlanOf(cdb, old(Facing())))
      ensures (flag ==> linked) && Flushes(cdb, old(Facing())) ==> job.syncs
    {
      hide Inv;
      hide InCommand;
      hide Disk.Valid;
      hide Begun;
      hide PlanOf;
      hide Flushes;
      hide IsLinked;
      hide HasFlag;
      hide Now;
      TakeCdb(bytes);
      ShapeKept();
      if flag && !linked {
        Report(Some(BAD_FIELD));
      } else {
        Execute();
      }
    }

    lemma FaultsKept()
      requires Inv(Now(), job)
      ensures bus.faults >= job.faults1
    {
      CommandFaults(Now(), job);
    }

    method CommandWithBytes(bytes: seq<Byte>, ghost host: seq<Byte>)
      requires Shape() && InCommand(Now(), job) && job.plan == Nothing(None) && job.host == bus.fromHost
      requires HeardCommand(host, bytes, bus.fromHost)
      modifies this`phase, this`offset, this`remainingLength, this`currentLength, this`chunkSize, this`buffer, this`job
      modifies this`status, this`sense, this`identifiedLun, this`atnMsg, bus`lines, bus`faults
      modifies this`cdb, this`linked, this`flag
      modifies disk`nextSector, disk`sectorTransferCount, disk`isReset, disk`isAttn, disk.Footprint()
      ensures Shape() && fresh(disk.Footprint() - old(disk.Footprint()))
      ensures Inv(Now(), job) && SameStart(old(job), job)
      ensures job.host == old(job.host) && job.faults1 == old(job.faults1) && bus.faults >= job.faults1
      ensures Understood(host, cdb, old(Facing()), job.plan, job.host, job.linked, job.flag)
      ensures AsksForFlush(host, cdb, old(Facing())) ==> job.syncs
    {
      hide Inv;
      hide InCommand;
      hide Disk.Valid;
      hide Now;
      hide PlanOf;
      hide Flushes;
      hide IsLinked;
      hide HasFlag;
      var count := CommandLength(bytes[0]);
      if count == 0 {
        Report(Some(BAD_OPCODE));
      } else {
        RunCdb(bytes);
      }
      FaultsKept();
    }

    // The COMMAND phase with a new job
    method StartCommand()
      requires |buffer| >= 512 && REQ !in bus.lines && RST !in bus.lines && !atnMsg
      modifies this`phase, this`job, bus`lines
      ensures phase.CommandPhase? && REQ !in bus.lines && RST !in bus.lines
      ensures Signals(Now(), job.busy) && job == NewJob(Now(), job.busy) && job.host == bus.fromHost
      ensures SameStart(NewJob(old(Now()), BSY in old(bus.lines) && SEL !in old(bus.lines)), job)
    {
      ghost var busy := BSY in bus.lines && SEL !in bus.lines;
      EnteredShows(bus.lines, CommandPhase);
      SetPhase(CommandPhase);
      job := NewJob(Now(), busy);
    }

    method HearCommand() returns (r: Option<seq<Byte>>, ghost heard: seq<Byte>)
      requires Shape() && |buffer| >= 512 && REQ !in bus.lines && RST !in bus.lines && !atnMsg
      modifies this`phase, this`offset, this`remainingLength, this`currentLength, this`chunkSize, this`buffer, this`job
      modifies this`status, this`sense, this`identifiedLun, this`atnMsg, bus`lines, bus`faults, bus`fromHost
      ensures Shape() && disk.Footprint() == old(disk.Footprint())
      ensures SameStart(NewJob(old(Now()), BSY in old(bus.lines) && SEL !in old(bus.lines)), job)
      ensures bus.faults >= old(bus.faults)
      ensures r.None? ==> Inv(Now(), job) && bus.faults > old(bus.faults) && job.host == old(bus.fromHost)
      ensures r.Some? ==>
                && InCommand(Now(), job) && job.host == bus.fromHost && job.plan == Nothing(None)
                && job.faults1 == bus.faults && identifiedLun == old(identifiedLun)
                && Hearing(old(bus.fromHost), heard, bus.fromHost, bus.faults - old(bus.faults))
                && HeardCommand(heard + bus.fromHost, r.value, bus.fromHost)
    {
      hide Inv;
      hide InCommand;
      hide Disk.Valid;
      hide HeardCommand;
      hide Hearing;
      hide Now;
      StartCommand();
      r, heard := TakeCommand();
      ShapeKept();
    }

    method Command()
      requires Shape() && |buffer| >= 512 && REQ !in bus.lines && RST !in bus.lines && !atnMsg
      modifies this`phase, this`offset, this`remainingLength, this`currentLength, this`chunkSize, this`buffer, this`job
      modifies this`status, this`sense, this`identifiedLun, this`atnMsg, bus`lines, bus`faults, bus`fromHost
      modifies this`cdb, this`linked, this`flag
      modifies disk`nextSector, disk`sectorTransferCount, disk`isReset, disk`isAttn, disk.Footprint()
      ensures Shape() && fresh(disk.Footprint() - old(disk.Footprint()))
      ensures Inv(Now(), job) && SameStart(NewJob(old(Now()), BSY in old(bus.lines) && SEL !in old(bus.lines)), job)
      ensures bus.faults >= old(bus.faults) && IsRest(job.host, old(bus.fromHost))
      ensures bus.faults == old(bus.faults) ==>
                Understood(old(bus.fromHost), cdb, old(Facing()), job.plan, job.host, job.linked, job.flag)
      ensures bus.faults == old(bus.faults) && AsksForFlush(old(bus.fromHost), cdb, old(Facing())) ==> job.syncs
    {
      hide Inv;
      hide InCommand;
      hide Disk.Valid;
      hide HeardCommand;
      hide Hearing;
      hide Understood;
      hide AsksForFlush;
      hide Now;
      var r;
      ghost var heard;
      r, heard := HearCommand();
      if r.Some? {
        HearingShows(old(bus.fromHost), heard, bus.fromHost, bus.faults - old(bus.faults));
        CommandWithBytes(r.value, heard + bus.fromHost);
      }
    }

    // BusFree(), in the BUS FREE phase: respond to a selection.
    method AwaitSelection()
      requires Inv(Now(), job) && phase.BusFreePhase?
      modifies this`phase, this`job, bus`lines
      ensures Inv(Now(), job) && (phase.BusFreePhase? || phase.SelectionPhase?)
      ensures job in {old(job), old(job).(progress := Idle, busy := true)}
      ensures phase.SelectionPhase? <==> SEL in old(bus.lines) && BSY !in old(bus.lines)
    {
      if SEL in bus.lines && BSY !in bus.lines {
        phase := SelectionPhase;
        bus.SetBSY(true);
        job := job.(progress := Idle, busy := true);
      }
    }

    // Room for one message byte
    method ExpectMessageByte()
      requires |buffer| >= 512
      modifies this`offset, this`remainingLength, this`currentLength, this`chunkSize, this`buffer
      ensures Now() == old(Now()).(k := ONE)
    {
      offset := 0;
      SetCurrentLength(1);
      SetTransferSize(1, 1);
    }

    // MsgOut(), from SELECTION
    method EnterMsgOut()
      requires Inv(Now(), job) && phase.SelectionPhase? && SEL !in bus.lines
      modifies this`phase, this`offset, this`remainingLength, this`currentLength, this`chunkSize, this`buffer
      modifies this`atnMsg, this`msgBytes, bus`lines
      ensures Inv(Now(), job) && phase.MsgOutPhase? && atnMsg && msgBytes == []
      ensures old(Honest()) ==> Honest()
    {
      hide Inv;
      hide Honest;
      ghost var v := Now();
      BufferFits(v, job);
      atnMsg := true;
      msgBytes := [];
      SetPhase(MsgOutPhase);
      ExpectMessageByte();
      ghost var w := Now();
      MsgOutBegins(v, job, w);
      MessagePhaseShows(w, job);
      if old(Honest()) {
        BeginsHonestly();
      }
    }

    // A message byte has arrived; the next one follows as long as ATN is asserted.
    method TakeMessageByte() returns (last: bool)
      requires Inv(Now(), job) && phase.MsgOutPhase? && currentLength == 0
      modifies this`offset, this`remainingLength, this`currentLength, this`chunkSize, this`buffer, this`msgBytes
      modifies this`messages
      ensures msgBytes == old(msgBytes) + if atnMsg then [old(buffer)[0]] else []
      ensures messages == old(messages) + if atnMsg then [old(buffer)[0]] else []
      ensures last <==> ATN !in bus.lines
      ensures !last ==> Inv(Now(), job)
      ensures last ==> buffer == old(buffer)
    {
      hide Inv;
      ghost var v := Now();
      MessageTaken(v, job);
      UpdateTransferLength(if chunkSize < remainingLength then chunkSize else remainingLength);
      // XferMsg
      if atnMsg {
        msgBytes := msgBytes + [buffer[0]];
        messages := messages + [buffer[0]];
      }
      // ProcessMessage
      last := ATN !in bus.lines;
      if !last {
        ExpectMessageByte();
        MessageGoesOn(v, job, Now());
      }
    }

    // The first rejection enters MESSAGE IN, each further one sends what the one before has put into the buffer.
    method RejectExtendedMessage()
      requires |buffer| >= 512 && REQ !in bus.lines && !phase.BusFreePhase?
      modifies this`phase, this`offset, this`remainingLength, this`currentLength, this`chunkSize, this`buffer
      modifies this`status, this`sense, this`identifiedLun, this`atnMsg, bus`lines, bus`faults, bus`toHost
      ensures |buffer| >= 512 && REQ !in bus.lines && (atnMsg ==> old(atnMsg))
      ensures phase.BusFreePhase? ==> bus.faults > old(bus.faults) && RST in bus.lines
      ensures !phase.BusFreePhase? ==>
                && phase.MsgInPhase? && identifiedLun == old(identifiedLun) && bus.faults >= old(bus.faults)
                && bus.lines - TYPE_LINES == old(bus.lines) - TYPE_LINES
      ensures !old(phase).MsgInPhase? ==> !phase.BusFreePhase? && bus.toHost == old(bus.toHost) && offset == 0
      ensures old(phase).MsgInPhase? && !phase.BusFreePhase? ==> old(bus.toHost) <= bus.toHost
      ensures old(phase).MsgInPhase? && !phase.BusFreePhase? && old(offset) == 0 ==>
                exists p :: bus.toHost == old(bus.toHost) + [Sent(p, MESSAGE_REJECT)]
    {
      EnteredShows(bus.lines, MsgInPhase);
      SetCurrentLength(1);
      SetTransferSize(1, 1);
      buffer := buffer[0 := MESSAGE_REJECT];
      if !phase.MsgInPhase? {
        EnterMsgIn();
      } else if offset < |buffer| {
        ghost var sent := buffer[offset..offset + 1];
        SendBuffer();
        assert sent == [sent[0]];
      }
    }

    // The messages received behind a selection with ATN. A reset condition ends the phase. Unless there is a fault,
    // nothing is sent if there is one rejection only, and otherwise the first byte sent is MESSAGE REJECT.
    method ParseMessage()
      requires |cdb| == 16 && |buffer| >= 512 && REQ !in bus.lines && RST !in bus.lines && phase.MsgOutPhase? && !atnMsg
      modifies this`phase, this`offset, this`remainingLength, this`currentLength, this`chunkSize, this`buffer
      modifies this`status, this`sense, this`identifiedLun, this`atnMsg, bus`lines, bus`faults, bus`toHost, disk`isReset
      ensures |buffer| >= 512 && REQ !in bus.lines && !atnMsg
      ensures bus.faults == old(bus.faults) ==>
                RST !in bus.lines && identifiedLun == LunOfMessages(msgBytes, old(identifiedLun))
      ensures bus.faults == old(bus.faults) ==> (bus.toHost == old(bus.toHost) <==> Rejections(msgBytes) < 2)
      ensures bus.faults == old(bus.faults) && Rejections(msgBytes) >= 2 ==>
                BeginsWithReject(old(bus.toHost), bus.toHost)
      ensures bus.faults >= old(bus.faults)
      ensures bus.faults == old(bus.faults) ==>
                disk.isReset == (old(disk.isReset) || ResetsDevice(msgBytes, old(identifiedLun), cdb))
      ensures Leaves(msgBytes) || RST in bus.lines || bus.lines - TYPE_LINES == old(bus.lines) - TYPE_LINES
    {
      var i := 0;
      ghost var seen := 0;
      while i < |msgBytes|
        invariant 0 <= i <= |msgBytes| && |buffer| >= 512 && REQ !in bus.lines && !phase.BusFreePhase? && !atnMsg
        invariant RST !in bus.lines && bus.faults >= old(bus.faults)
        invariant bus.lines - TYPE_LINES == old(bus.lines) - TYPE_LINES
        invariant LunOfMessages(msgBytes[i..], identifiedLun) == LunOfMessages(msgBytes, old(identifiedLun))
        invariant ResetsDevice(msgBytes[i..], identifiedLun, cdb) == ResetsDevice(msgBytes, old(identifiedLun), cdb)
        invariant disk.isReset == old(disk.isReset)
        invariant seen + Rejections(msgBytes[i..]) == Rejections(msgBytes)
        invariant phase.MsgInPhase? <==> seen > 0
        invariant seen == 1 ==> offset == 0
        invariant if seen < 2 then bus.toHost == old(bus.toHost) else BeginsWithReject(old(bus.toHost), bus.toHost)
      {
        var message := msgBytes[i];
        assert msgBytes[i..][0] == message && msgBytes[i..][1..] == msgBytes[i + 1..];
        if message == 0x01 {
          SameBusyLines(bus.lines, old(bus.lines));
          RejectExtendedMessage();
          if phase.BusFreePhase? {
            return;
          }
          SameBusyLines(bus.lines, old(bus.lines));
          seen := seen + 1;
        } else if message == ABORT {
          assert message in msgBytes && IsLeaving(message);
          LeaveBus();
          return;
        } else if message == BUS_DEVICE_RESET {
          assert message in msgBytes && IsLeaving(message);
          if LunOf(identifiedLun, cdb) == 0 {
            disk.isReset := true;
          }
          LeaveBus();
          return;
        } else if message >= 0x80 {
          identifiedLun := message % 32;
        }
        i := i + 1;
      }
    }

    method HandleMessages()
      requires Shape() && |buffer| >= 512 && REQ !in bus.lines && RST !in bus.lines && phase.MsgOutPhase?
      modifies this`phase, this`offset, this`remainingLength, this`currentLength, this`chunkSize, this`buffer
      modifies this`status, this`sense, this`identifiedLun, this`atnMsg, bus`lines, bus`faults, bus`toHost, disk`isReset
      ensures Shape() && disk.Footprint() == old(disk.Footprint())
      ensures |buffer| >= 512 && REQ !in bus.lines && !atnMsg && bus.faults >= old(bus.faults)
      ensures Leaves(msgBytes) || RST in bus.lines || bus.lines - TYPE_LINES == old(bus.lines) - TYPE_LINES
      ensures bus.faults == old(bus.faults) ==>
                && RST !in bus.lines && Facing() == Heeded(old(Facing()), if old(atnMsg) then msgBytes else [], cdb)
    {
      hide Disk.Valid;
      if atnMsg {
        atnMsg := false;
        ParseMessage();
        ShapeKept();
      }
    }

    // ProcessMessage() behind the last message byte. A command phase behind a reset condition is skipped.
    method ProcessMessage()
      requires Shape() && |buffer| >= 512 && REQ !in bus.lines && RST !in bus.lines && phase.MsgOutPhase?
      requires job.progress.Idle? && BSY in bus.lines && SEL !in bus.lines
      modifies this, bus, disk`nextSector, disk`sectorTransferCount, disk`isReset, disk`isAttn, disk.Footprint()
      ensures Shape() && fresh(disk.Footprint() - old(disk.Footprint())) && Inv(Now(), job)
      ensures messages == old(messages) && msgBytes == old(msgBytes) && (Leaves(msgBytes) || Truthful())
      ensures bus.faults >= old(bus.faults) && |cdb| == 16
      ensures bus.faults == old(bus.faults) ==>
                Understood(old(bus.fromHost), cdb, Heeded(old(Facing()), if old(atnMsg) then msgBytes
                                                          else [], old(cdb)),
                           job.plan, job.host, job.linked, job.flag)
    {
      hide Inv;
      hide Disk.Valid;
      hide Now;
      hide Leaves;
      hide Understood;
      hide Heeded;
      HandleMessages();
      assert Leaves(msgBytes) || RST in bus.lines || (BSY in bus.lines && SEL !in bus.lines) by {
        SameBusyLines(bus.lines, old(bus.lines));
      }
      CommandUnlessReset();
    }

    // The command behind the messages
    method CommandUnlessReset()
      requires Shape() && |buffer| >= 512 && REQ !in bus.lines && job.progress.Idle? && !atnMsg
      modifies this`phase, this`offset, this`remainingLength, this`currentLength, this`chunkSize, this`buffer, this`job
      modifies this`status, this`sense, this`identifiedLun, this`atnMsg, bus`lines, bus`faults, bus`fromHost
      modifies this`cdb, this`linked, this`flag
      modifies disk`nextSector, disk`sectorTransferCount, disk`isReset, disk`isAttn, disk.Footprint()
      ensures Shape() && fresh(disk.Footprint() - old(disk.Footprint())) && Inv(Now(), job)
      ensures bus.faults >= old(bus.faults) && |cdb| == 16
      ensures if RST in old(bus.lines) then phase.BusFreePhase?
              else job.busy == (BSY in old(bus.lines) && SEL !in old(bus.lines))
      ensures bus.faults == old(bus.faults) && RST !in old(bus.lines) ==>
                Understood(old(bus.fromHost), cdb, old(Facing()), job.plan, job.host, job.linked, job.flag)
    {
      hide Inv;
      hide Disk.Valid;
      hide Now;
      hide Understood;
      if RST in bus.lines {
        LeaveForReset();
        ShapeKept();
      } else {
        Command();
      }
    }

    method LeaveForReset()
      requires |buffer| >= 512 && REQ !in bus.lines && job.progress.Idle? && !atnMsg
      modifies this`phase, this`status, this`identifiedLun, this`atnMsg, this`job, bus`lines
      ensures Inv(Now(), job) && phase.BusFreePhase? && !job.syncs
    {
      LeaveBus();
      job := job.(faults0 := bus.faults, failures0 := disk.file.failures, faults1 := bus.faults, syncs := false);
    }

    // MsgOut(), in the MESSAGE OUT phase
    method MsgOut()
      requires Shape() && Inv(Now(), job) && phase.MsgOutPhase? && RST !in bus.lines
      modifies this, bus, disk`nextSector, disk`sectorTransferCount, disk`isReset, disk`isAttn, disk.Footprint()
      ensures Shape() && fresh(disk.Footprint() - old(disk.Footprint())) && Inv(Now(), job)
      ensures old(currentLength) == 0 && ATN in old(bus.lines) ==>
                phase.MsgOutPhase? && msgBytes == old(msgBytes) + if old(atnMsg) then [old(buffer)[0]] else []
      ensures old(currentLength) == 0 && ATN !in old(bus.lines) && bus.faults == old(bus.faults) ==>
                && |cdb| == 16 && |old(buffer)| > 0
                && Understood(old(bus.fromHost), cdb,
                              Heeded(old(Facing()), if old(atnMsg) then old(msgBytes) + [old(buffer)[0]]
                                     else [], old(cdb)),
                              job.plan, job.host, job.linked, job.flag)
      ensures old(Honest()) ==> Honest()
    {
      hide Inv;
      hide Disk.Valid;
      hide Honest;
      hide Understood;
      hide Heeded;
      MessagePhaseShows(Now(), job);
      if currentLength != 0 {
        ghost var data := ReceiveNow();
        ShapeKept();
        if old(Honest()) {
          StaysHonest();
        }
      } else {
        NextMessageByte();
      }
    }

    // MsgOut() behind a message byte
    method NextMessageByte()
      requires Shape() && Inv(Now(), job) && phase.MsgOutPhase? && RST !in bus.lines && currentLength == 0
      modifies this, bus, disk`nextSector, disk`sectorTransferCount, disk`isReset, disk`isAttn, disk.Footprint()
      ensures Shape() && fresh(disk.Footprint() - old(disk.Footprint())) && Inv(Now(), job)
      ensures ATN in old(bus.lines) ==>
                phase.MsgOutPhase? && msgBytes == old(msgBytes) + if old(atnMsg) then [old(buffer)[0]] else []
      ensures ATN !in old(bus.lines) && bus.faults == old(bus.faults) ==>
                && |cdb| == 16 && |old(buffer)| > 0
                && Understood(old(bus.fromHost), cdb,
                              Heeded(old(Facing()), if old(atnMsg) then old(msgBytes) + [old(buffer)[0]]
                                     else [], old(cdb)),
                              job.plan, job.host, job.linked, job.flag)
      ensures old(Honest()) ==> Honest()
    {
      hide Inv;
      hide Disk.Valid;
      hide Honest;
      hide Leaves;
      hide Understood;
      hide Heeded;
      MessagePhaseShows(Now(), job);
      var last := TakeMessageByte();
      ShapeKept();
      if old(Honest()) {
        TakenHonestly(if atnMsg then [old(buffer)[0]] else []);
      }
      label Taken:
      if last {
        ProcessMessage();
        if old(Honest()) {
          HandledHonestly@Taken();
        }
      }
    }

    // DataIn(), in the DATA IN phase
    method DataIn()
      requires Shape() && Inv(Now(), job) && phase.DataInPhase? && RST !in bus.lines
      modifies this, bus, disk`nextSector, disk`sectorTransferCount, disk`isReset, disk`isAttn, disk`image
      modifies disk.Footprint()
      ensures Shape() && fresh(disk.Footprint() - old(disk.Footprint())) && Inv(Now(), job)
      ensures Onward(old(Now()), old(job), Now(), job) && cdb == old(cdb)
      ensures old(Honest()) ==> Honest()
    {
      hide Inv;
      hide Disk.Valid;
      hide Closer;
      if currentLength != 0 {
        SendNow();
        ShapeKept();
      } else {
        NextDataIn();
      }
    }

    // DataOut(), in the DATA OUT phase
    method DataOut()
      requires Shape() && Inv(Now(), job) && phase.DataOutPhase? && RST !in bus.lines
      modifies this, bus, disk`nextSector, disk`sectorTransferCount, disk`isReset, disk`isAttn, disk`image
      modifies disk.Footprint()
      ensures Shape() && fresh(disk.Footprint() - old(disk.Footprint())) && Inv(Now(), job)
      ensures Onward(old(Now()), old(job), Now(), job) && cdb == old(cdb)
      ensures old(Honest()) ==> Honest()
    {
      hide Inv;
      hide Disk.Valid;
      hide Closer;
      if currentLength != 0 {
        ghost var data := ReceiveNow();
        ShapeKept();
      } else {
        NextDataOut();
      }
    }

    // Status(), in the STATUS phase
    method Status()
      requires Shape() && Inv(Now(), job) && phase.StatusPhase? && RST !in bus.lines
      modifies this, bus, disk`nextSector, disk`sectorTransferCount, disk`isReset, disk`isAttn, disk`image
      modifies disk.Footprint()
      ensures Shape() && fresh(disk.Footprint() - old(disk.Footprint())) && Inv(Now(), job)
      ensures Onward(old(Now()), old(job), Now(), job) && cdb == old(cdb)
      ensures old(Honest()) ==> Honest()
    {
      hide Inv;
      hide Disk.Valid;
      hide Closer;
      if currentLength != 0 {
        SendNow();
        ShapeKept();
      } else {
        NextStatus();
        ShapeKept();
      }
    }

    // MsgIn(), in the MESSAGE IN phase: the end of the command, unless another one is linked to it
    method MsgIn()
      requires Shape() && Inv(Now(), job) && phase.MsgInPhase? && RST !in bus.lines
      modifies this, bus, disk`nextSector, disk`sectorTransferCount, disk`isReset, disk`isAttn, disk`image
      modifies disk.Footprint()
      ensures Shape() && fresh(disk.Footprint() - old(disk.Footprint())) && Inv(Now(), job)
      ensures Within(old(Now())) ==> Onward(old(Now()), old(job), Now(), job) && cdb == old(cdb)
      ensures old(currentLength == 0 && !linked) ==> phase.BusFreePhase?
      ensures old(currentLength == 0 && linked) && bus.faults == old(bus.faults) ==>
                && |cdb| == 16
                && Understood(old(bus.fromHost), cdb, old(Facing()), job.plan, job.host, job.linked, job.flag)
      ensures old(Honest()) ==> Honest()
    {
      hide Inv;
      hide Disk.Valid;
      hide Closer;
      hide Honest;
      hide Understood;
      MessageInShows(Now(), job);
      if currentLength == 0 && linked {
        NextLinked();
      } else {
        SendOrEnd();
        ShapeKept();
      }
    }

    // MsgIn() before the message has been sent, and behind the message of a command that is not linked
    method SendOrEnd()
      requires Inv(Now(), job) && phase.MsgInPhase? && (currentLength == 0 ==> !linked)
      modifies this`phase, this`offset, this`remainingLength, this`currentLength, this`chunkSize, this`buffer, this`job
      modifies this`status, this`sense, this`identifiedLun, this`atnMsg, bus`lines, bus`faults, bus`toHost
      ensures Inv(Now(), job) && SameCommand(old(job), job) && Closer(old(Now()), Now())
      ensures old(currentLength) == 0 ==> phase.BusFreePhase?
      ensures old(Honest()) ==> Honest()
    {
      hide Inv;
      hide Closer;
      hide Honest;
      if currentLength != 0 {
        SendNow();
      } else {
        EndCommand();
      }
      if old(Honest()) {
        StaysHonest();
      }
    }

    // ProcessEndOfMessage() of a linked command
    method NextLinked()
      requires Shape() && |buffer| >= 512 && REQ !in bus.lines && RST !in bus.lines && !atnMsg
      requires chunkSize <= remainingLength && phase.MsgInPhase?
      requires job.busy ==> BSY in bus.lines && SEL !in bus.lines
      modifies this, bus, disk`nextSector, disk`sectorTransferCount, disk`isReset, disk`isAttn, disk.Footprint()
      ensures Shape() && fresh(disk.Footprint() - old(disk.Footprint())) && Inv(Now(), job)
      ensures old(Honest()) ==> Honest()
      ensures bus.faults == old(bus.faults) ==>
                && |cdb| == 16
                && Understood(old(bus.fromHost), cdb, old(Facing()), job.plan, job.host, job.linked, job.flag)
    {
      hide Inv;
      hide Disk.Valid;
      hide Honest;
      hide Understood;
      hide Now;
      UpdateTransferLength(chunkSize);
      // ResetFlags
      linked := false;
      flag := false;
      ShapeKept();
      Command();
      if old(Honest()) {
        StaysHonest();
      }
    }

    method ResetFlags()
      modifies this`identifiedLun, this`linked, this`flag, this`atnMsg
      ensures identifiedLun == -1 && Now() == old(Now()).(linked := false, flag := false, atn := false)
    {
      identifiedLun := -1;
      linked, flag, atnMsg := false, false, false;
    }

    // AbstractController::Reset, the disk's Reset and Bus::Reset
    method ResetState()
      modifies this`phase, this`offset, this`remainingLength, this`currentLength, this`chunkSize, this`status
      modifies this`identifiedLun, this`linked, this`flag, this`atnMsg, bus`lines, disk`isReset, disk`isAttn
      ensures IsReset(old(Now()), Now()) && identifiedLun == -1
    {
      disk.Reset();
      bus.Reset();
      phase, status := BusFreePhase, GOOD;
      offset, remainingLength, currentLength, chunkSize := 0, 0, 0, 0;
      ghost var u := Now();
      ResetFlags();
    }

    // Reset(), behind a reset condition
    method Reset()
      requires Shape() && Inv(Now(), job) && RST in bus.lines
      modifies this`phase, this`offset, this`remainingLength, this`currentLength, this`chunkSize, this`status
      modifies this`identifiedLun, this`linked, this`flag, this`atnMsg, bus`lines, disk`isReset, disk`isAttn
      ensures Shape() && disk.Footprint() == old(disk.Footprint()) && Inv(Now(), job) && phase.BusFreePhase?
      ensures PhaseRank(old(phase)) > 0 ==> Onward(old(Now()), job, Now(), job)
      ensures old(Honest()) ==> Honest()
    {
      hide Inv;
      hide Disk.Valid;
      hide Onward;
      ResetState();
      ResetKeepsInv(old(Now()), job, Now());
      ShapeKept();
    }

    // Selection(), in the SELECTION phase
    method Selection()
      requires Shape() && Inv(Now(), job) && phase.SelectionPhase? && RST !in bus.lines
      modifies this, bus, disk`nextSector, disk`sectorTransferCount, disk`isReset, disk`isAttn, disk`image
      modifies disk.Footprint()
      ensures Shape() && fresh(disk.Footprint() - old(disk.Footprint())) && Inv(Now(), job)
      ensures old(Honest()) ==> Honest()
      // The target waits for the end of the selection, and then takes messages or a command.
      ensures SEL in old(bus.lines) || BSY !in old(bus.lines) ==> phase.SelectionPhase?
      ensures SEL !in old(bus.lines) && BSY in old(bus.lines) && ATN in old(bus.lines) ==>
                phase.MsgOutPhase? && atnMsg && msgBytes == []
      ensures SEL !in old(bus.lines) && BSY in old(bus.lines) && ATN !in old(bus.lines)
              && bus.faults == old(bus.faults) ==>
                && |cdb| == 16
                && Understood(old(bus.fromHost), cdb, old(Facing()), job.plan, job.host, job.linked, job.flag)
    {
      hide Inv;
      CommandPhases(Now(), job);
      hide Disk.Valid;
      hide Now;
      hide Honest;
      hide Understood;
      if SEL !in bus.lines && BSY in bus.lines {
        // Message out phase if ATN is asserted, otherwise command phase
        if ATN in bus.lines {
          EnterMsgOut();
          ShapeKept();
        } else {
          Command();
          if old(Honest()) {
            StaysHonest();
          }
        }
      }
    }

    // BusFree(), in the BUS FREE phase
    method FreeBus()
      requires Shape() && Inv(Now(), job) && phase.BusFreePhase?
      modifies this`phase, this`job, bus`lines
      ensures Shape() && disk.Footprint() == old(disk.Footprint()) && Inv(Now(), job)
      ensures phase.SelectionPhase? <==> SEL in old(bus.lines) && BSY !in old(bus.lines)
      ensures old(Honest()) ==> Honest()
    {
      hide Inv;
      hide Disk.Valid;
      AwaitSelection();
      ShapeKept();
    }

    // The phase's own method; no other phase than these is ever reached between two steps.
    method ProcessPhase()
      requires Shape() && Inv(Now(), job) && RST !in bus.lines
      modifies this, bus, disk`nextSector, disk`sectorTransferCount, disk`isReset, disk`isAttn, disk`image
      modifies disk.Footprint()
      ensures Shape() && fresh(disk.Footprint() - old(disk.Footprint())) && Inv(Now(), job)
      ensures Within(old(Now())) ==> Onward(old(Now()), old(job), Now(), job) && cdb == old(cdb)
      ensures old(Honest()) ==> Honest()
    {
      hide Inv;
      CommandPhases(Now(), job);
      hide Disk.Valid;
      hide Now;
      hide Onward;
      match phase
      case BusFreePhase => FreeBus();
      case SelectionPhase => Selection();
      case MsgOutPhase => MsgOut();
      case DataInPhase => DataIn();
      case DataOutPhase => DataOut();
      case StatusPhase => Status();
      case MsgInPhase => MsgIn();
      case _ => assert false;
    }

    method AcquireForStep()
      requires Shape() && Inv(Now(), job)
      modifies bus`lines, bus`faults
      ensures Shape() && Inv(Now(), job) && Acquired(old(Now()), Now())
    {
      hide Inv;
      hide Disk.Valid;
      Acquire();
      AcquireKeepsInv(old(Now()), job, Now());
      ShapeKept();
    }

    // One step of the controller; false if the bus is free.
    method Process() returns (more: bool)
      requires Valid()
      modifies this, bus, disk`nextSector, disk`sectorTransferCount, disk`isReset, disk`isAttn, disk`image
      modifies disk.Footprint()
      ensures Valid() && fresh(disk.Footprint() - old(disk.Footprint()))
      ensures more <==> !phase.BusFreePhase?
      ensures Within(old(Now())) ==> Onward(old(Now()), old(job), Now(), job) && cdb == old(cdb)
      ensures old(Honest()) ==> Honest()
    {
      hide Inv;
      hide Disk.Valid;
      hide Onward;
      hide Honest;
      hide Acquired;
      AcquireForStep();
      ghost var u := Now();
      if RST in bus.lines {
        Reset();
      } else {
        ProcessPhase();
      }
      if Within(old(Now())) {
        OnwardFromAcquired(old(Now()), u, old(job), Now(), job);
      }
      more := !phase.BusFreePhase?;
    }

    // In every run without an ABORT or BUS DEVICE RESET message the bus shows the phase of the controller, outside
    // SELECTION.
    lemma PhaseIsShown()
      requires Inv(Now(), job) && Honest() && !Leaves(messages) && !phase.SelectionPhase?
      requires phase.BusFreePhase? ==> SEL !in bus.lines
      ensures PhaseOfLines(bus.lines) == phase
    {
      LinesShowPhase(Now(), job);
    }

    // The loop of ProcessOnController, over any number of steps: no step leaves the reachable states.
    method ProcessOnController(steps: nat) returns (more: bool)
      requires Valid()
      modifies this, bus, disk`nextSector, disk`sectorTransferCount, disk`isReset, disk`isAttn, disk`image
      modifies disk.Footprint()
      ensures Valid() && fresh(disk.Footprint() - old(disk.Footprint()))
      ensures !more ==> phase.BusFreePhase? || steps == 0
      ensures old(Honest()) ==> Honest()
      ensures old(Honest()) && !Leaves(messages) && !phase.SelectionPhase?
              && (phase.BusFreePhase? ==> SEL !in bus.lines) ==>
                PhaseOfLines(bus.lines) == phase
    {
      hide Inv;
      hide Disk.Valid;
      hide Onward;
      hide Now;
      more := true;
      var n := steps;
      while more && n > 0
        invariant Valid() && fresh(disk.Footprint() - old(disk.Footprint()))
        invariant old(Honest()) ==> Honest()
        invariant !more ==> phase.BusFreePhase?
      {
        more := Process();
        n := n - 1;
      }
      if Honest() && !Leaves(messages) && !phase.SelectionPhase? && (phase.BusFreePhase? ==> SEL !in bus.lines) {
        PhaseIsShown();
      }
    }

    // A step of a command, up to the end of its message and behind it unless another command is linked to it
    method Step() returns (more: bool)
      requires Valid() && Within(Now())
      modifies this, bus, disk`nextSector, disk`sectorTransferCount, disk`isReset, disk`isAttn, disk`image
      modifies disk.Footprint()
      ensures Valid() && fresh(disk.Footprint() - old(disk.Footprint()))
      ensures SameCommand(old(job), job) && !job.progress.Idle?
      ensures if more then PhaseRank(phase) > 0 && linked == job.linked else phase.BusFreePhase?
      ensures Closer(old(Now()), Now()) && cdb == old(cdb)
    {
      hide Inv;
      hide Disk.Valid;
      hide Closer;
      CommandPhases(Now(), job);
      more := Process();
      CommandPhases(Now(), job);
    }

    // The same loop from a data, status or message phase on: a command that is not linked ends.
    method FinishCommand()
      requires Valid() && PhaseRank(phase) > 0 && !linked
      modifies this, bus, disk`nextSector, disk`sectorTransferCount, disk`isReset, disk`isAttn, disk`image
      modifies disk.Footprint()
      ensures Valid() && fresh(disk.Footprint() - old(disk.Footprint()))
      ensures phase.BusFreePhase? && SameCommand(old(job), job) && !job.progress.Idle? && bus.faults >= old(bus.faults)
      ensures cdb == old(cdb)
    {
      hide Disk.Valid;
      hide Inv;
      CommandPhases(Now(), job);
      var more := Step();
      while more
        invariant Valid() && fresh(disk.Footprint() - old(disk.Footprint()))
        invariant SameCommand(old(job), job) && !job.progress.Idle? && bus.faults >= old(bus.faults) && cdb == old(cdb)
        invariant if more then PhaseRank(phase) > 0 && !linked else phase.BusFreePhase?
        decreases PhaseRank(phase), remainingLength, currentLength
      {
        more := Step();
      }
    }

    // The loop up to the end of the message, for every command
    method ReachMessage()
      requires Valid() && (PhaseRank(phase) > 0 || phase.BusFreePhase?) && !job.progress.Idle?
      modifies this, bus, disk`nextSector, disk`sectorTransferCount, disk`isReset, disk`isAttn, disk`image
      modifies disk.Footprint()
      ensures Valid() && fresh(disk.Footprint() - old(disk.Footprint()))
      ensures AtMessage(Now()) || phase.BusFreePhase?
      ensures SameCommand(old(job), job) && !job.progress.Idle? && bus.faults >= old(bus.faults) && cdb == old(cdb)
    {
      hide Disk.Valid;
      hide Inv;
      while !phase.BusFreePhase? && !(phase.MsgInPhase? && currentLength == 0)
        invariant Valid() && fresh(disk.Footprint() - old(disk.Footprint()))
        invariant PhaseRank(phase) > 0 || phase.BusFreePhase?
        invariant SameCommand(old(job), job) && !job.progress.Idle? && bus.faults >= old(bus.faults) && cdb == old(cdb)
        decreases PhaseRank(phase), remainingLength, currentLength
      {
        var more := Step();
      }
    }

    // A command from the COMMAND phase to the end of its message, linked or not. The initiator has its data, one
    // status byte and one message unless there was a fault; whatever fails, the image changes within the range of a
    // WRITE only.
    method RunToMessage()
      requires Shape() && |buffer| >= 512 && REQ !in bus.lines && RST !in bus.lines && !atnMsg
      requires BSY in bus.lines && SEL !in bus.lines
      modifies this, bus, disk`nextSector, disk`sectorTransferCount, disk`isReset, disk`isAttn, disk`image
      modifies disk.Footprint()
      ensures Valid() && fresh(disk.Footprint() - old(disk.Footprint()))
      ensures AtMessage(Now()) || phase.BusFreePhase?
      ensures Reached(old(Now()), Now(), job) && IsRest(job.host, old(bus.fromHost))
      ensures bus.faults >= old(bus.faults) && disk.file.failures >= old(disk.file.failures)
      ensures bus.faults == old(bus.faults) ==>
                && Told(old(Now()), Now(), job)
                && Understood(old(bus.fromHost), cdb, old(Facing()), job.plan, job.host, job.linked, job.flag)
      ensures bus.faults == old(bus.faults) && !job.success && !job.plan.Unmodelled? ==>
                EndsWithFailure(bus.toHost, job.linked, job.flag)
      ensures bus.faults == old(bus.faults) && disk.file.failures == old(disk.file.failures) ==>
                Answered(old(Now()), Now(), job)
      ensures StaysInRange(old(Now()), Now(), job.plan, job.host)
      ensures bus.faults == old(bus.faults) && AsksForFlush(old(bus.fromHost), cdb, old(Facing())) ==> job.syncs
      ensures bus.faults == old(bus.faults) && disk.file.failures == old(disk.file.failures)
              && AsksForFlush(old(bus.fromHost), cdb, old(Facing())) ==>
                disk.Saved()
    {
      hide Disk.Valid;
      hide Inv;
      hide Understood;
      hide AsksForFlush;
      hide Answered;
      hide Told;
      hide EndsWithFailure;
      hide StaysInRange;
      Command();
      CommandPhases(Now(), job);
      ReachMessage();
      Conclude(old(Now()), Now(), job);
    }

    // A command from the COMMAND phase to BUS FREE, or to the end of its message if another command is linked to it.
    // Without faults it is the command the host has put out, and the host gets exactly the answer to it.
    method RunCommand()
      requires Shape() && |buffer| >= 512 && REQ !in bus.lines && RST !in bus.lines && !atnMsg
      requires BSY in bus.lines && SEL !in bus.lines
      modifies this, bus, disk`nextSector, disk`sectorTransferCount, disk`isReset, disk`isAttn, disk`image
      modifies disk.Footprint()
      ensures Valid() && fresh(disk.Footprint() - old(disk.Footprint()))
      ensures phase.BusFreePhase? || (job.linked && AtMessage(Now()))
      ensures Reached(old(Now()), Now(), job) && IsRest(job.host, old(bus.fromHost))
      ensures bus.faults >= old(bus.faults) && disk.file.failures >= old(disk.file.failures)
      ensures bus.faults == old(bus.faults) ==>
                && Told(old(Now()), Now(), job)
                && Understood(old(bus.fromHost), cdb, old(Facing()), job.plan, job.host, job.linked, job.flag)
      ensures bus.faults == old(bus.faults) && !job.success && !job.plan.Unmodelled? ==>
                EndsWithFailure(bus.toHost, job.linked, job.flag)
      ensures bus.faults == old(bus.faults) && disk.file.failures == old(disk.file.failures) ==>
                Answered(old(Now()), Now(), job)
      ensures StaysInRange(old(Now()), Now(), job.plan, job.host)
      ensures bus.faults == old(bus.faults) && AsksForFlush(old(bus.fromHost), cdb, old(Facing())) ==> job.syncs
      ensures bus.faults == old(bus.faults) && disk.file.failures == old(disk.file.failures)
              && AsksForFlush(old(bus.fromHost), cdb, old(Facing())) ==>
                disk.Saved()
    {
      hide Disk.Valid;
      hide Inv;
      hide Understood;
      hide AsksForFlush;
      hide Answered;
      hide Told;
      hide EndsWithFailure;
      hide StaysInRange;
      RunToMessage();
      CommandPhases(Now(), job);
      if !phase.BusFreePhase? && !linked {
        FinishCommand();
      }
      Conclude(old(Now()), Now(), job);
    }

    // A refused READ with the link bit: LINKED COMMAND COMPLETE behind CHECK CONDITION
    method RefuseLinkedRead()
      requires Shape() && |buffer| >= 512 && REQ !in bus.lines && RST !in bus.lines && !atnMsg
      requires BSY in bus.lines && SEL !in bus.lines
      requires LINKED_READ <= bus.fromHost && identifiedLun in {-1, 0} && disk.Usable()
      requires 0 < disk.blockCount < 0xffff_ffff && disk.blockSize < LIMIT31
      modifies this, bus, disk`nextSector, disk`sectorTransferCount, disk`isReset, disk`isAttn, disk`image
      modifies disk.Footprint()
      ensures bus.faults == old(bus.faults) ==>
                bus.toHost == old(bus.toHost)
                              + [Sent(StatusPhase, CHECK_CONDITION), Sent(MsgInPhase, LINKED_COMMAND_COMPLETE)]
    {
      hide Disk.Valid;
      hide Inv;
      hide Understood;
      RunToMessage();
      if bus.faults == old(bus.faults) {
        LinkedReadIsRefused(old(bus.fromHost), cdb, old(Facing()), job.plan, job.host, job.linked, job.flag);
        NoDataTagged(old(bus.toHost), Ending(CHECK_CONDITION, true, false));
      }
    }

    // Another selection by the initiator, once the bus is free and the LUN forgotten
    method Reselect()
      requires Valid() && phase.BusFreePhase?
      modifies bus`lines, this`atnMsg, this`identifiedLun
      ensures bus.lines == {BSY} && !atnMsg && Shape() && |buffer| >= 512 && identifiedLun == -1
      ensures Now() == old(Now()).(lines := {BSY}, atn := false) && (disk.Usable() ==> Facing() == Ready())
    {
      hide Inv;
      hide Disk.Valid;
      CommandPhases(Now(), job);
      bus.Reset();
      bus.SetBSY(true);
      atnMsg, identifiedLun := false, -1;
      assert bus.lines == {BSY};
      ShapeKept();
    }

    // The next command, behind another selection
    method RunNextCommand()
      requires Valid() && phase.BusFreePhase?
      modifies this, bus, disk`nextSector, disk`sectorTransferCount, disk`isReset, disk`isAttn, disk`image
      modifies disk.Footprint()
      ensures Valid() && fresh(disk.Footprint() - old(disk.Footprint()))
      ensures bus.faults >= old(bus.faults) && disk.file.failures >= old(disk.file.failures) && |cdb| == 16
      ensures bus.faults == old(bus.faults) && old(disk.Usable()) ==>
                Understood(old(bus.fromHost), cdb, old(Ready()), job.plan, job.host, job.linked, job.flag)
      ensures bus.faults == old(bus.faults) && disk.file.failures == old(disk.file.failures) ==>
                && Answered(old(Now()), Now(), job)
                && (old(disk.Usable()) && AsksForFlush(old(bus.fromHost), cdb, old(Ready())) ==> disk.Saved())
    {
      hide Disk.Valid;
      hide Inv;
      hide Understood;
      hide AsksForFlush;
      hide Told;
      hide EndsWithFailure;
      hide StaysInRange;
      hide Answered;
      ghost var v := Now();
      Reselect();
      ghost var u := Now();
      RunCommand();
      if bus.faults == old(bus.faults) && disk.file.failures == old(disk.file.failures) {
        AnsweredFrom(v, u, Now(), job);
      }
    }

    // Two commands, the second one behind another selection, which is the one that the host has put out behind the data
    // of the first. If they are a WRITE and a READ of the same range, the READ delivers what was written; if they are a
    // WRITE and a command that flushes the cache, the file has it.
    method RunTwoCommands() returns (ghost first: Job, ghost firstCdb: seq<Byte>)
      requires Shape() && |buffer| >= 512 && REQ !in bus.lines && RST !in bus.lines && !atnMsg
      requires BSY in bus.lines && SEL !in bus.lines
      modifies this, bus, disk`nextSector, disk`sectorTransferCount, disk`isReset, disk`isAttn, disk`image
      modifies disk.Footprint()
      ensures bus.faults >= old(bus.faults)
      ensures bus.faults == old(bus.faults) ==>
                && |firstCdb| == 16
                && Understood(old(bus.fromHost), firstCdb, old(Facing()), first.plan, first.host, first.linked,
                              first.flag)
      ensures bus.faults == old(bus.faults) && disk.file.failures == old(disk.file.failures)
              && first.plan.Writing? && !first.linked ==>
                var host := BehindData(first, disk.blockSize);
                && |cdb| == 16 && Understood(host, cdb, Ready(), job.plan, job.host, job.linked, job.flag)
                && BehindWrite(old(Now()), Now(), first, job) && (AsksForFlush(host, cdb, Ready()) ==> disk.Saved())
    {
      hide Disk.Valid;
      hide Inv;
      hide Understood;
      hide AsksForFlush;
      hide Told;
      hide EndsWithFailure;
      hide StaysInRange;
      hide Answered;
      hide BehindWrite;
      hide BehindData;
      ghost var a := Now();
      RunCommand();
      first, firstCdb := job, cdb;
      if !phase.BusFreePhase? {
        return;
      }
      ghost var b, ready := Now(), Ready();
      RunNextCommand();
      if b.faults == a.faults && bus.faults == a.faults && disk.file.failures == a.failures && first.plan.Writing?
         && !first.linked {
        AnsweredBehindWrite(a, b, Now(), first, job);
        assert Ready() == ready;
      }
    }

    // A ready disk, before the LUN is identified
    ghost function Ready(): Situation
      reads disk`isProtected
    {
      Situation(-1, None, disk.isProtected, disk.blockSize, disk.blockCount)
    }

    // A host that puts out a WRITE with its data and a READ of the same range gets its data back, whichever forms of
    // the commands it uses.
    method WriteAndReadBack(ghost write: seq<Byte>, ghost read: seq<Byte>, ghost start: nat, ghost count: nat,
                            ghost data: seq<Byte>)
      requires Shape() && |buffer| >= 512 && REQ !in bus.lines && RST !in bus.lines && !atnMsg
      requires BSY in bus.lines && SEL !in bus.lines && identifiedLun in {-1, 0}
      requires disk.Usable() && !disk.isProtected && start + count <= disk.blockCount < LIMIT64
      requires IsTransfer(write, true, start, count) && IsTransfer(read, false, start, count)
      requires 0 < count && |data| == count * disk.blockSize < LIMIT31 && write + data + read <= bus.fromHost
      modifies this, bus, disk`nextSector, disk`sectorTransferCount, disk`isReset, disk`isAttn, disk`image
      modifies disk.Footprint()
      ensures bus.faults == old(bus.faults) && disk.file.failures == old(disk.file.failures) ==>
                bus.toHost == old(bus.toHost) + Ending(GOOD, false, false) + Tagged(DataInPhase, data)
                              + Ending(GOOD, false, false)
    {
      hide Disk.Valid;
      hide Understood;
      hide IsTransfer;
      ghost var host, x := bus.fromHost, Facing();
      ghost var first, firstCdb;
      first, firstCdb := RunTwoCommands();
      if bus.faults == old(bus.faults) && disk.file.failures == old(disk.file.failures) {
        PartsOfHost(host, write, data, read);
        assert host[|write|..][..|data|] == data;
        TransferIsUnderstood(host, [], write, firstCdb, x, first.plan, first.host, first.linked, first.flag, true,
                             start,
                             count);
        TransferIsUnderstood(host[|write|..][|data|..], [], read, cdb, Ready(), job.plan, job.host, job.linked,
                             job.flag,
                             false, start, count);
      }
    }

    // A host that puts out a WRITE with its data and a command that flushes the cache finds the data in the file, in
    // every caching mode: SYNCHRONIZE CACHE, or a VERIFY of a range that exists.
    method WriteAndFlush(ghost write: seq<Byte>, ghost flush: seq<Byte>, ghost start: nat, ghost count: nat,
                         ghost data: seq<Byte>)
      requires Shape() && |buffer| >= 512 && REQ !in bus.lines && RST !in bus.lines && !atnMsg
      requires BSY in bus.lines && SEL !in bus.lines && identifiedLun in {-1, 0}
      requires disk.Usable() && !disk.isProtected && start + count <= disk.blockCount < LIMIT64
      requires IsTransfer(write, true, start, count) && IsFlush(flush, disk.blockCount)
      requires 0 < count && |data| == count * disk.blockSize < LIMIT31 && write + data + flush <= bus.fromHost
      modifies this, bus, disk`nextSector, disk`sectorTransferCount, disk`isReset, disk`isAttn, disk`image
      modifies disk.Footprint()
      ensures bus.faults == old(bus.faults) && disk.file.failures == old(disk.file.failures) ==>
                && disk.Saved() && WrittenTo(disk.file.bytes, old(disk.image), start * disk.blockSize, data)
    {
      hide Disk.Valid;
      hide Understood;
      hide AsksForFlush;
      hide IsTransfer;
      hide IsFlush;
      ghost var host, x := bus.fromHost, Facing();
      ghost var first, firstCdb;
      first, firstCdb := RunTwoCommands();
      if bus.faults == old(bus.faults) && disk.file.failures == old(disk.file.failures) {
        PartsOfHost(host, write, data, flush);
        TransferIsUnderstood(host, [], write, firstCdb, x, first.plan, first.host, first.linked, first.flag, true,
                             start,
                             count);
        FlushIsUnderstood(host[|write|..][|data|..], [], flush, cdb, Ready(), job.plan, job.host, job.linked, job.flag);
        assert host[|write|..][..|data|] == data;
      }
    }
  }

  lemma PartsOfHost(host: seq<Byte>, write: seq<Byte>, data: seq<Byte>, read: seq<Byte>)
    requires write + data + read <= host
    ensures PutsOut(host, [], write) && data <= host[|write|..] && PutsOut(host[|write|..][|data|..], [], read)
  {
    var all, n := write + data + read, |write|;
    assert host[..|all|] == all;
    assert host[..n] == all[..n] == write && [] + write == write && [] + read == read;
    assert host[n..][..|data|] == all[n..][..|data|] == data;
    assert host[n..][|data|..] == host[n + |data|..];
    assert host[n + |data|..][..|read|] == all[n + |data|..] == read;
  }
}
