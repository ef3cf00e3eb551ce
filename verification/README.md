# SCSI2Pi: bus handshake, track cache, tape images and command processing

SCSI2Pi emulates SCSI devices on a SCSI bus. This project models the parts of it in which state is updated step by
step, and proves what they keep.

| files | what they model |
|---|---|
| `SignalWord.dfy` | the shared word of bus signals, one line or the data byte changed at a time, and the bus phase decoded from it |
| `HandshakeOutcome.dfy`, `DataInHandshake.dfy`, `DataOutHandshake.dfy` | the REQ/ACK handshake as two step machines, target and initiator, interleaved in any order. Each access to a shared line is one step; giving up a wait is a step of its own, possible whenever a poll has seen the wrong level. The phase check of the initiator uses either its own last sample or the shared word |
| `FlatImage.dfy`, `TrackModel.dfy`, `CacheModel.dfy`, `Recency.dfy` | a file of sectors, a cached track, 16 slots of tracks against the flat image a host sees, and the order of their last use |
| `DiskTrack.dfy`, `DiskCache.dfy`, `LinuxCache.dfy`, `Disk.dfy` | the classes that keep tracks, slots and the sector position. Each access to the image file can fail |
| `CacheSwitch.dfy` | READ LONG and WRITE LONG, for which a disk gives up its track cache |
| `TargetBus.dfy`, `Requests.dfy`, `CommandAnswer.dfy` | the bus as the target sees it, whose handshakes run the step machines, the meaning of a CDB, and what a host gets for the bytes of each command |
| `TransferModel.dfy`, `CommandResult.dfy`, `Controller.dfy` | the phases of a command as values with their invariant, what a command has done when it ends, and the class that goes through the phases, with one disk as LUN 0 |
| `Simh.dfy`, `TapeModel.dfy`, `TapeData.dfy`, `TapeEnd.dfy`, `TapePlace.dfy`, `TapeOdd.dfy`, `Tape.dfy` | SIMH magtape images: metadata, objects, the search over them in both directions, records written and read in chunks, the end of a tape, the places a device can be at, records that cannot be read, and the tape device |
| `TapeDump.dfy` | the tape reader with its adaptive block length, and the codec of tape dumps |
| `Crc.dfy`, `CrcLaw.dfy` | the CRC-32 of received Ethernet frames, and the division of polynomials that defines it (section 3.2.9 of IEEE 802.3) |
| `ScsiGeneric.dfy` | block transfers split into sub-commands for a SCSI generic device |
| `Basics.dfy` | options, bytes and a minimum |

Classes and methods follow the classes and methods of the source and update their fields in place. Each is tied by its
contract to functions on values (`Find`, `SaveFrom`, `Fcs`, `Records`, a `Snapshot` of the controller), and the lemmas
are about these functions, over all inputs. Exceptions and error returns are results. Waits that either side gives up,
accesses to the image file that fail, and the lines that the initiator drives are free choices. `faults` counts the
waits given up and the resets, `failures` the file accesses; a theorem without a condition on them covers all these
choices. A wait that the initiator gives up is the one case in which a wrong byte can get into the data
(`RunHasReceiveOutcome`, `LastByteCanBeWrong`), which is why such theorems speak of one wrong byte for each fault.

Ghost state names what the source does not store: `DiskCache.image` is the flat image, `DiskCache.history` the tracks
accessed, `Controller.job` the command being processed with the data it has moved, `Controller.messages` all message
bytes taken, `Tape.track` what the current WRITE
has put on the tape.

## What to read first

- Handshake: `CountedBytesAreSentBytes`, `EveryRunEnds` and `NoTimeoutDelivers`, in both directions (section 6.1.5.1
  of SCSI-2); `RunHasSendOutcome` and `RunHasReceiveOutcome` for what the target may conclude.
- Cache: `DiskCache.Valid` with the contracts of `ReadSectors`, `WriteSectors` and `Flush`; `RecentMeansFewSince` says
  what the order of the cached tracks means.
- Commands: `Controller.RunCommand`, `Controller.WriteAndReadBack`, `Controller.WriteAndFlush` and
  `Controller.ProcessOnController`. The invariant of a step is `Transfers.Inv`, the measure `Transfers.Closer`; the
  predicates about the end of a command are in `CommandResult.dfy`.
- Tape: `SpaceThereAndBack`, `LocateFinds`, `FindForwardStays`, `FindBackStays`, `ReadOfBlock`, `Tape.WriteThenRead`.
- Dump: `Executor.ReadRecord`, `DumpTape`, `DumpRestores`.
- CRC and SCSI generic: `FcsIsRemainder`, `Residue`, `BurstIsDetected`, `ScsiGeneric.Read`, `ScsiGeneric.Write`.

## What the code does not do

Each of these is proved about the code as it is.

- On the in-process bus the last phase check of the initiator reads the shared word. The target may have changed the
  phase by then, and the initiator's count is one short although it has all bytes. Without a timeout this is possible
  exactly on the shared word and for data that are not empty (`OneShortIsPossible`).
- An initiator that gives up its wait for REQ and reuses the data lines can make the target count a wrong byte, the
  last one of the call, for all data and at any index (`LastByteCanBeWrong`); it is never another byte
  (`RunHasReceiveOutcome`).
- The range check adds start and count in 64 bits. It accepts ranges whose end wraps around (`WrappedRangePasses`),
  and `CheckIsExactUpToWrap` says exactly which.
- SEEK(6) takes byte 4 for a count and 0 for 256: a seek to one of the last 255 blocks is refused. SEEK(10) accepts the
  address behind the last block (`SeekIsOff`).
- A record of odd length that is well-formed on the tape cannot be read: the read steps back by the length without its
  padding, and the trailing length it then meets never matches (`ReadOfBlock`, `WriteThenReadVariable`, with
  `ShiftedLength` for all lengths). At an odd position a record of even length cannot be read either, and one of odd
  length only by a coincidence (`OddOneIsMissed`, `OddAtOddIsMissed`, `Tape.WriteThenRead`).
- A READ in fixed mode reports no error for records whose length divides the byte count. It delivers the records
  exactly if they have the length of a block (`FixedReadOfBlock`).
- SPACE forward and back over n blocks or filemarks does not return to what lies in front of the first of them. The
  position is restored if and only if there is nothing, the object location if and only if there are only erase gaps;
  for filemarks there can be blocks (`SpaceThereAndBack`).
- LOCATE of an object that does not exist leaves the tape behind the end of data mark, not in front of it
  (`LocateStays`).
- The overflow check of a metadata write adds the tape position twice (`Tape.WriteSimhMetaData`); results on WRITE are
  for writes that raise no error.
- READ LONG and WRITE LONG replace the track cache and ignore the result of its flush. If no sector is marked as
  modified that differs from the file, nothing is lost whatever the flush does; otherwise a flush that fails at once
  loses it (`Switch`, `LoseSector`). A READ LONG that is not refused has no data exactly if the sector cannot be read
  from the file, and it reports no error (`CacheSwitch.ReadLong`).
- LINKED COMMAND COMPLETE is sent behind CHECK CONDITION exactly if the command has its link bit set (`FailureEnds`,
  `RefuseLinkedRead`).
- MESSAGE REJECT is sent exactly if two bytes 0x01 stand in front of the first ABORT or BUS DEVICE RESET: the first one
  only enters MESSAGE IN with the rejection in the buffer, the second one sends it. So a SYNCHRONOUS DATA TRANSFER
  REQUEST, which holds 0x01 twice, is answered; an extended message with a single byte 0x01 is not (`ParseMessage`,
  `RejectionsOfMessages`).
- A transfer through SCSI generic of 2 GiB or more, or with a six byte command of count 0, does not move the range it
  asks for (`ScsiGeneric.Read`, `ScsiGeneric.Write`, `FourGigabytesAreLost`).

## Model

| member | source | states |
|---|---|---|
| `SignalWord.SetDatIsExact` | cpp/buses/in_process_bus.cpp:28-36 | putting a byte on the shared word changes the data byte to exactly this byte and no control line |
| `SignalWord.SetSignalIsExact` | cpp/buses/in_process_bus.cpp:53-70 | driving a line changes exactly this line, in either direction, and never the data byte |
| `SignalWord.DatReadsBack` | cpp/buses/bus.h:59-62 | every byte put on the data lines is the byte read from them |
| `SignalWord.PhaseTableIsStandard` | cpp/buses/bus.cpp:354-397 | the table with 32 entries, indexed by five bits of the word, is the phase rule of SCSI-2 section 6.2 on the set of asserted lines, for every word |
| `SignalWord.HandshakeKeepsPhase` | cpp/buses/bus.h:161-165 | REQ, ACK, ATN, RST and the data byte never change the phase that the table decodes |
| `SignalWord.LinesArePins` | cpp/buses/board.h:69-99 | the nine control lines are the bits 19 to 27 of the word, and the data lines the bits 10 to 17 |
| `DataInHandshake.StartInv` | cpp/buses/bus.cpp:156-231 | the two calls start in the invariant, for any data, any division into chunks and any count |
| `DataInHandshake.TargetKeepsInv` | cpp/buses/bus.cpp:192-231 | no step of TargetSendHandShake leaves the invariant, whatever the initiator is doing |
| `DataInHandshake.TargetGiveUpKeepsInv` | cpp/buses/bus.cpp:274-302 | nor does a wait of the target that is given up |
| `DataInHandshake.InitiatorKeepsTogether` | cpp/buses/bus.cpp:156-188 | a step of InitiatorReceiveHandShake keeps the relation between the two positions and the two counts |
| `DataInHandshake.InitiatorKeepsCounted` | cpp/buses/bus.cpp:168-185 | a byte the initiator counts is the byte the target has sent at this index |
| `DataInHandshake.InitiatorGiveUpKeepsInv` | cpp/buses/bus.cpp:274-302 | a wait of the initiator that is given up does not leave the invariant |
| `DataInHandshake.CountedBytesAreSentBytes` | cpp/buses/bus.cpp:156-231 | in every interleaving, with any waits given up, the bytes the initiator has counted are the first bytes of the data, and the two counts differ by at most one |
| `DataInHandshake.EveryRunEnds` | cpp/buses/bus.cpp:156-302 | the two calls take a bounded number of steps in every interleaving, whatever the bus does elsewhere |
| `DataInHandshake.SmoothNeverDeadlocks` | cpp/buses/bus.cpp:156-231 | without timeouts a state in which neither side can move is one in which both calls have returned, and the other way round |
| `DataInHandshake.NoTimeoutDelivers` | cpp/buses/bus.cpp:156-231 | without timeouts and with equal lengths no reachable state deadlocks, the buffer is the data at the end, the target returns the full count, and so does the initiator unless it reads the shared word and the target has already changed the phase |
| `DataInHandshake.OneShortIsPossible` | cpp/buses/in_process_bus.cpp:38-51 | without timeouts and with equal lengths the count of the initiator can come out short if and only if it reads the shared word and there is something to receive |
| `DataInHandshake.CallsEndReleased` | cpp/buses/bus.cpp:192-231 | unless a wait has been given up, every call of the target, for whatever chunk, returns with REQ and ACK released |
| `DataInHandshake.RunKeepsArrived` | cpp/buses/bus.cpp:192-231 | with any waits given up, every byte the target has counted is in the buffer of the initiator |
| `DataInHandshake.RunHasSendOutcome` | cpp/buses/bus.cpp:192-231 | whenever the target has returned, in every run: what it has counted has arrived, at most one byte more has, and a short count means that a wait was given up |
| `DataInHandshake.Exchange` | cpp/buses/bus.cpp:156-302 | stepping both sides in any order, with any waits given up, ends in a state that a schedule reaches |
| `DataOutHandshake.TargetKeepsLines` | cpp/buses/bus.cpp:129-154 | a step of TargetReceiveHandShake keeps the relation between lines, positions and counts |
| `DataOutHandshake.TargetKeepsBytes` | cpp/buses/bus.cpp:129-154 | the bytes both sides have counted stay the same bytes when the target goes on |
| `DataOutHandshake.InitiatorKeepsTogether` | cpp/buses/bus.cpp:234-272 | a step of InitiatorSendHandShake keeps the relation between the two positions and the two counts |
| `DataOutHandshake.InitiatorKeepsCounted` | cpp/buses/bus.cpp:234-272 | the bytes both sides have counted stay the same bytes when the initiator goes on |
| `DataOutHandshake.CountedBytesAreSentBytes` | cpp/buses/bus.cpp:129-154 | in every interleaving, with any waits given up, each byte both sides have counted is the byte of the data at this index, and the two counts differ by at most one |
| `DataOutHandshake.EveryRunEnds` | cpp/buses/bus.cpp:129-302 | the two calls take a bounded number of steps in every interleaving |
| `DataOutHandshake.SmoothNeverDeadlocks` | cpp/buses/bus.cpp:129-272 | without timeouts exactly the states in which both calls have returned cannot move on |
| `DataOutHandshake.NoTimeoutDelivers` | cpp/buses/bus.cpp:129-272 | without timeouts and with equal lengths there is no deadlock, the target has the whole data and the full count, and the initiator is at most one short, on the shared word only |
| `DataOutHandshake.OneShortIsPossible` | cpp/buses/in_process_bus.cpp:38-51 | without timeouts and with equal lengths the count of the initiator can come out short if and only if it reads the shared word and there is something to send |
| `DataOutHandshake.RunHasReceiveOutcome` | cpp/buses/bus.cpp:129-154 | whenever the target has returned, in every run: without a wait given up it has all the bytes it asked for and they are those of the initiator; with one the count may be short and only the last byte may be wrong |
| `DataOutHandshake.LastByteCanBeWrong` | cpp/buses/bus.cpp:234-302 | for all data, any number of bytes to count and any byte there is a run in which the target counts that many, the last one being this byte and the others as they were sent: with one wait given up for the last byte it asks for, with two for an earlier one |
| `DataOutHandshake.Exchange` | cpp/buses/bus.cpp:129-302 | stepping both sides in any order, with any waits given up, ends in a state that a schedule reaches |
| `HandshakeOutcomes.OutcomeIsHeard` | cpp/buses/bus.cpp:129-154 | what a target has received has at most one wrong byte for each wait given up, and none without |
| `TargetBuses.PhaseLinesShowPhase` | cpp/buses/bus.cpp:354-397 | the MSG, CD and IO lines the controller drives for a phase are the ones the table decodes as this phase |
| `TargetBuses.Bus.SetBSY` | cpp/buses/bus.cpp:304-314 | releasing BSY releases MSG, CD, REQ and IO with it, and nothing else changes |
| `TargetBuses.Bus.TargetSendHandShake` | cpp/buses/bus.cpp:192-231 | a run of the two step machines with an initiator that asks for any number of bytes: what has arrived, in the phase of the bus, is a prefix of the buffer that holds at least the counted bytes; without a wait given up it is all of it |
| `TargetBuses.Bus.TargetReceiveHandShake` | cpp/buses/bus.cpp:129-154 | a run of the two step machines with an initiator that sends any number of its bytes: the data are the next bytes of the host, with at most the last one wrong and only if a wait was given up |
| `TargetBuses.Bus.TargetCommandHandShake` | cpp/buses/bus.cpp:35-101 | a command is the next 6, 10, 12 or 16 bytes heard from the host by its first byte, one leading 0x1f of an ICD host adapter is left out, and an unknown first byte is all of the command; there is at most one wrong byte for each wait given up |
| `TrackModel.RunIsItsSectors` | cpp/devices/disk_track.cpp:80-105 | writing a run of modified sectors at once and going on behind it gives the file that writing them one by one gives |
| `TrackModel.SectorAfterSave` | cpp/devices/disk_track.cpp:65-115 | behind a save each sector of the file is the cached one if it was modified and the old one otherwise |
| `TrackModel.TailAfterSave` | cpp/devices/disk_track.cpp:65-115 | no byte behind the track changes |
| `TrackModel.PartialRunOutsideDirty` | cpp/devices/disk_track.cpp:90-105 | a run that was written in part changes modified sectors only |
| `TrackModel.RetryReachesSameFile` | cpp/devices/disk_track.cpp:65-115 | a save behind any number of failed saves reaches the file that a first successful save would have reached |
| `TrackModel.RunIsInFile` | cpp/devices/disk_track.cpp:90-105 | if each modified sector is in the file already, so is every run of them |
| `DiskTracks.DiskTrack.Load` | cpp/devices/disk_track.cpp:29-63 | a loaded track holds the bytes of its range of the file and no modified sector |
| `DiskTracks.DiskTrack.CountRun` | cpp/devices/disk_track.cpp:84-96 | the run found is all modified, and as long as possible |
| `DiskTracks.DiskTrack.Save` | cpp/devices/disk_track.cpp:65-115 | on success the file is the one that saving each modified sector on its own gives, and the track is clean; on failure the track is unchanged and every sector that is not modified keeps its bytes; a file that has the modified sectors already stays as it is, wherever the save fails |
| `DiskTracks.DiskTrack.ReadSector` | cpp/devices/disk_track.cpp:117-130 | the sector of the buffer, or none behind the end of the track |
| `DiskTracks.DiskTrack.WriteSector` | cpp/devices/disk_track.cpp:132-151 | the sector is replaced, and marked if its content changes or it was marked before; behind the end of the track nothing happens |
| `CacheModel.WriteKeepsCoherent` | cpp/devices/disk_cache.cpp:68-82 | a write to a cached sector keeps cache and file coherent with the flat image in which this sector has been written |
| `CacheModel.SaveKeepsCoherent` | cpp/devices/disk_cache.cpp:33-38 | saving a track leaves the image a host sees as it was |
| `CacheModel.FailedSaveKeepsCoherent` | cpp/devices/disk_cache.cpp:96-108 | so does a save that has failed anywhere |
| `CacheModel.LoadKeepsCoherent` | cpp/devices/disk_cache.cpp:117-147 | a loaded track that was in no slot before shows the image, modified sectors included |
| `CacheModel.EvictKeepsCoherent` | cpp/devices/disk_cache.cpp:96-115 | a saved track can be dropped |
| `CacheModel.CleanCacheIsFile` | cpp/devices/disk_cache.cpp:33-38 | when no cached sector is modified the file is the image |
| `CacheModel.ImageIsUpToDate` | cpp/devices/disk_cache.cpp:33-38 | a file that is the image has the modified sectors of every cached track |
| `DiskCaches.DiskCache.constructor` | cpp/devices/disk_cache.cpp:20-31 | a new cache shows the file and holds no track |
| `DiskCaches.DiskCache.FindCached` | cpp/devices/disk_cache.cpp:40-50 | the slot that holds the track, or none if no slot does |
| `DiskCaches.DiskCache.ReplaceOldest` | cpp/devices/disk_cache.cpp:96-115 | the track goes to the slot with the smallest serial number, whose track is saved before; a failed save leaves cache and image as they were |
| `DiskCaches.DiskCache.UpdateSerial` | cpp/devices/disk_cache.cpp:149-161 | serial numbers keep the order of accesses until the counter of 32 bits wraps around; then all are 0 |
| `DiskCaches.DiskCache.CachedTracksAreRecent` | cpp/devices/disk_cache.cpp:84-115 | a track is cached if and only if fewer than 16 others have been used since its last access, as long as no file access has failed and the serial number has not wrapped around |
| `DiskCaches.DiskCache.AssignTrack` | cpp/devices/disk_cache.cpp:84-115 | one access more in the history, and the track in a slot unless a file access has failed; cached tracks stay the most recently used ones |
| `DiskCaches.DiskCache.GetTrack` | cpp/devices/disk_cache.cpp:40-50 | the track of the sector is in the cache afterwards unless a file access has failed |
| `DiskCaches.DiskCache.ReadSectors` | cpp/devices/disk_cache.cpp:52-66 | the sector of the flat image, in every state reached by any accesses, evictions and failures; a result unless a file access has failed |
| `DiskCaches.DiskCache.WriteSectors` | cpp/devices/disk_cache.cpp:68-82 | on success exactly this sector of the flat image changes, otherwise nothing |
| `DiskCaches.DiskCache.Flush` | cpp/devices/disk_cache.cpp:33-38 | on success the file equals the flat image; the image never changes; a file that is the image stays it even if the flush fails |
| `Recency.MruIsDistinct` | cpp/devices/disk_cache.cpp:84-115 | the list of tracks by last access names each track that was accessed exactly once |
| `Recency.TouchFollowsHistory` | cpp/devices/disk_cache.cpp:40-50 | keeping a bounded list, last access first, gives the first entries of the unbounded list |
| `Recency.RecentMeansFewSince` | cpp/devices/disk_cache.cpp:84-115 | a track is among the first n of that list if and only if fewer than n different tracks were accessed since its last access |
| `Recency.HitFollowsHistory` | cpp/devices/disk_cache.cpp:40-50 | an access to a cached track keeps the slots the most recently used tracks, in the order of the serial numbers |
| `Recency.MissFollowsHistory` | cpp/devices/disk_cache.cpp:84-94 | so does loading a track into an empty slot |
| `Recency.ReplaceFollowsHistory` | cpp/devices/disk_cache.cpp:96-115 | so does replacing the track with the smallest serial number, which is the least recently used one |
| `LinuxCaches.LinuxCache.ReadSectors` | cpp/devices/linux_cache.cpp:24-57 | the bytes of the range of the file, nothing for a range behind the last sector |
| `LinuxCaches.LinuxCache.WriteSectors` | cpp/devices/linux_cache.cpp:29-76 | on success the range of the file is the data; a failed write leaves a prefix of the data in place, and a range behind the last sector changes nothing |
| `Disks.CheckIsExactUpToWrap` | cpp/devices/disk.cpp:555-597 | the range check accepts exactly the ranges that end within the capacity and those whose end wraps around 64 bits to a value within it |
| `Disks.WrappedRangePasses` | cpp/devices/disk.cpp:586-592 | the last 64 bit address with one block passes the check on every disk |
| `Disks.Disk.constructor` | cpp/devices/disk.cpp:166-193 | a disk in any caching mode shows its file |
| `Disks.Disk.CheckReady` | cpp/base/primary_device.cpp:303-321 | the sense data is that of the first condition that holds, reset before attention before not ready; the reported condition is cleared and the other one kept |
| `Disks.Disk.CheckAndGetStartAndCount` | cpp/devices/disk.cpp:555-597 | the answer for the start and count fields of this command form, with the capacity of the disk |
| `Disks.Disk.ReadData` | cpp/devices/disk.cpp:399-414 | one chunk: one sector, or the whole range when the cache of the operating system is used; its bytes are those of the image and the position moves behind it |
| `Disks.Disk.CacheRead` | cpp/devices/disk.cpp:399-414 | in every caching mode the bytes of the range of the image |
| `Disks.Disk.CacheWrite` | cpp/devices/disk.cpp:416-447 | in every caching mode the image changes by the stored part of the data at its place and nowhere else, by all of it unless a file access has failed |
| `Disks.Disk.WriteData` | cpp/devices/disk.cpp:416-447 | one chunk goes to its place in the image; on failure a prefix of it, with MEDIUM ERROR, WRITE FAULT |
| `Disks.Disk.FlushCache` | cpp/devices/disk.cpp:195-200 | in every caching mode the file is the image and its stream holds nothing back unless a file access has failed |
| `Disks.Disk.WriteThroughIsSaved` | cpp/devices/linux_cache.cpp:59-76 | with write-through, in every state that is reached, the file is the image and its stream holds nothing back, as long as no file access has failed |
| `LinuxCaches.LinuxCache.ReadLong` | cpp/devices/linux_cache.cpp:34-57 | the bytes from the start of a sector on, nothing behind the last sector |
| `LinuxCaches.LinuxCache.WriteLong` | cpp/devices/linux_cache.cpp:39-76 | on success the bytes from the start of the sector on are the data; a failed write leaves a prefix of them |
| `CacheSwitch.FileIsImage` | cpp/devices/disk.cpp:285-292 | a file is the image if and only if nothing is pending: every sector marked as modified is in the file all the same |
| `CacheSwitch.LoseSector` | cpp/devices/disk.cpp:285-292 | a new cache, a WRITE of 512 bytes, and the switch while the file does not work: the host reads the old bytes again, zeros where it has written ones |
| `CacheSwitch.Switch` | cpp/devices/disk.cpp:285-292 | if nothing is pending before the command, every outcome of the flush keeps what the host sees; if something is pending, a flush that fails at once loses it; sectors not marked as modified are kept in any case; exactly a failed flush is a failed access |
| `CacheSwitch.WhyNoAccess` | cpp/devices/disk.cpp:267-310 | a READ LONG or WRITE LONG gets to the file if and only if the disk is ready, the address is absolute and on the disk, the length is that of a sector and a write is allowed; otherwise the first of these that fails is reported |
| `CacheSwitch.ReadLong` | cpp/devices/disk.cpp:267-310 | the first READ LONG of a disk with a track cache has no data if and only if the sector cannot be read from the file, and never an error; otherwise it has the sector of the file, which is as the cache showed it if the flush has worked or the sector is not pending; a refused one leaves cache and file alone |
| `CacheSwitch.WriteLong` | cpp/devices/disk.cpp:267-310 | the first WRITE LONG reports WRITE FAULT if and only if its own file access fails; if neither it nor the flush does, exactly this sector of what the cache showed changes; a refused one leaves cache and file alone |
| `Requests.Cdb6CarriesRange` | cpp/devices/disk.cpp:555-584 | the 21 bit address and the count, 256 for 0, are read back from a READ(6) or WRITE(6) that was built from them |
| `Requests.Cdb10CarriesRange` | cpp/devices/disk.cpp:555-584 | the same for READ(10) and WRITE(10) |
| `Requests.Cdb16CarriesRange` | cpp/devices/disk.cpp:555-584 | the same for READ(16) and WRITE(16), with 64 bit addresses |
| `Requests.RangeIsPlan` | cpp/devices/disk.cpp:214-265 | for every range, a ready disk refuses a READ or WRITE with LBA OUT OF RANGE if and only if it ends behind the capacity, taking a wrap around 64 bits into account; it moves exactly the range if this is on the medium and less than 2 GiB, and nothing for count 0; nothing is promised for the rest |
| `CommandAnswers.CommandIsTaken` | cpp/controllers/controller.cpp:104-174 | the bytes of a command, behind an 0x1f or not, are the CDB; the lowest bit of its control byte is the link bit, the next one the flag bit, and the flag bit alone is refused |
| `CommandAnswers.LengthIsThatOfGroup` | cpp/shared/command_meta_data.cpp:16-38 | every opcode has the length of its group of 32, except 0x1f, 0x7f and those from 0xc2 on, which have none |
| `CommandAnswers.TransferIsUnderstood` | cpp/devices/disk.cpp:48-122 | a READ or WRITE with 6, 10 or 16 bytes that the host has put out is exactly this READ or WRITE of exactly its range, or is refused with the sense data of the first reason: LUN, write protection, readiness, range |
| `CommandAnswers.ReadinessIsReported` | cpp/base/primary_device.cpp:21-25 | TEST UNIT READY, REZERO and REASSIGN BLOCKS report the state of the disk |
| `CommandAnswers.SynchronizeSucceeds` | cpp/devices/disk.cpp:94-98 | SYNCHRONIZE CACHE succeeds on LUN 0 whatever the state of the disk |
| `CommandAnswers.VerifyChecksRange` | cpp/devices/disk.cpp:239-249 | VERIFY checks readiness and range and moves nothing |
| `CommandAnswers.SeekIsOff` | cpp/devices/disk.cpp:555-592 | SEEK(6) to a block succeeds if and only if 256 blocks from there on are on the disk, SEEK(10) if and only if the address is not above the number of blocks |
| `CommandAnswers.UnknownIsRefused` | cpp/base/primary_device.cpp:64-75 | an opcode that a disk does not have is refused with INVALID COMMAND OPERATION CODE |
| `CommandAnswers.OpcodeWithoutLength` | cpp/controllers/controller.cpp:115-128 | an opcode without a length is refused behind its first byte |
| `CommandAnswers.OnlyLunZero` | cpp/controllers/controller.cpp:176-209 | a LUN other than 0 is refused, whether it is in the CDB or in an IDENTIFY message, which wins |
| `CommandAnswers.FlushIsUnderstood` | cpp/devices/disk.cpp:239-249 | SYNCHRONIZE CACHE with 10 or 16 bytes, and a VERIFY of a range on the disk, are commands that flush the cache |
| `Transfers.ChunkWithinRemaining` | cpp/controllers/abstract_controller.cpp:46-78 | a chunk is not empty and never exceeds what remains |
| `Transfers.SentChunkAdvances` | cpp/controllers/abstract_controller.cpp:64-78 | behind a sent chunk nothing remains if and only if the last sector has been sent |
| `Transfers.ReceivedChunkAdvances` | cpp/controllers/abstract_controller.cpp:64-78 | behind a received chunk nothing remains if and only if it was the last one, and otherwise the counters stand at the next chunk |
| `Transfers.SendKeepsInv` | cpp/controllers/controller.cpp:353-364 | a chunk, status byte or message byte that was sent keeps the invariant of the command |
| `Transfers.ReceiveKeepsInv` | cpp/controllers/controller.cpp:421-434 | so does a chunk or message byte that was received |
| `Transfers.FetchKeepsInv` | cpp/controllers/controller.cpp:366-392 | so does fetching the next chunk or going to STATUS, and it comes closer to the end |
| `Transfers.StoreKeepsInv` | cpp/controllers/controller.cpp:436-493 | so does storing a received chunk, completely or not |
| `Transfers.StatusEnds` | cpp/controllers/controller.cpp:394-419 | behind the status byte the message of the command is in the buffer and the invariant holds, so that the command is closer to its end |
| `Transfers.CommandEnds` | cpp/controllers/controller.cpp:647-656 | behind the completion message the command is complete: data, one status byte, one message byte |
| `Transfers.CommandAnswered` | cpp/controllers/controller.cpp:176-209 | a command that moves no data reaches STATUS with its sense data |
| `Transfers.ReadSetUpBegins` | cpp/devices/disk.cpp:214-230 | a READ enters DATA IN with its first chunk in the buffer, or STATUS with MEDIUM ERROR |
| `Transfers.WriteSetUpBegins` | cpp/devices/disk.cpp:251-265 | a WRITE enters DATA OUT with room for its first chunk |
| `CommandResults.CommandTells` | cpp/controllers/controller.cpp:353-419 | a command that has come to its end has sent exactly its data, one status byte and one message, no data behind the status; it ends without a message only after a fault on the bus |
| `CommandResults.FailureEnds` | cpp/controllers/controller.cpp:394-419 | a command that has failed ends with CHECK CONDITION, and with a LINKED message if and only if its link bit is set, WITH FLAG if and only if also its flag bit is |
| `CommandResults.EndingBytes` | cpp/controllers/controller.cpp:215-252 | the status and message bytes: 00 00 or 02 00, and 10 or 02 with 0a or 0b for a linked command |
| `CommandResults.LinkedReadIsRefused` | cpp/devices/disk.cpp:586-592 | a READ(10) of the last 32 bit address with the link bit is refused by every disk with fewer blocks |
| `CommandResults.ReadDelivers` | cpp/controllers/controller.cpp:353-419 | a READ that ends without fault has sent exactly the sectors from its start on, in order, as they were, then one status and one message, and the image is unchanged |
| `CommandResults.WriteStores` | cpp/controllers/controller.cpp:421-493 | a WRITE that ends without fault, neither side having given up a wait, has put exactly the next bytes of the host into its sectors, taken them from the host, changed nothing else, and sent one status and one message |
| `CommandResults.NothingReports` | cpp/controllers/controller.cpp:328-351 | any other command leaves the image alone and sends one status byte, CHECK CONDITION with its sense data if it was refused, and one message, even if file accesses fail |
| `CommandResults.FailuresStayInRange` | cpp/controllers/controller.cpp:421-537 | whatever fails, a WRITE changes the image by bytes of the host at its place, the first ones on, with at most one wrong byte for each fault; no other command changes it |
| `CommandResults.StayingInRangeShows` | cpp/controllers/controller.cpp:421-537 | in any case nothing outside the range of a WRITE changes, and without a fault on the bus every changed byte is the byte of the host that belongs there |
| `CommandResults.ReadBehindWrite` | cpp/controllers/controller.cpp:353-537 | what a READ of the range of an earlier WRITE sends are the bytes that were written |
| `Transfers.LinesShowPhase` | cpp/controllers/controller.cpp:39-326 | in the invariant the phase of the controller is the one the bus table decodes from the lines, outside SELECTION and for a command that was received on a busy bus |
| `Transfers.ChunkNeverExceedsRemaining` | cpp/controllers/abstract_controller.cpp:55-72 | in the data phases the chunk is not empty, not more than what remains and not more than the buffer holds |
| `Controllers.Controller.constructor` | cpp/controllers/controller.cpp:21-37 | a new controller is in BUS FREE, in the invariant, and has taken no messages |
| `Controllers.Controller.Error` | cpp/controllers/controller.cpp:328-351 | an error leads to STATUS with CHECK CONDITION and its sense data; in STATUS or MESSAGE IN, or behind RST, to BUS FREE |
| `Controllers.Controller.SendBuffer` | cpp/controllers/controller.cpp:353-364 | the bytes of the current chunk reach the initiator in the phase of the bus and the offset moves behind them, or the bus is left and a fault is on record |
| `Controllers.Controller.ReceiveBuffer` | cpp/controllers/controller.cpp:421-434 | the bytes of the host go to the current chunk, or the bus is left and a fault is on record |
| `Controllers.Controller.TransferToHost` | cpp/controllers/controller.cpp:495-509 | the next chunk of the image is in the buffer, or STATUS has been entered with the read error |
| `Controllers.Controller.TransferFromHost` | cpp/controllers/controller.cpp:511-537 | the chunk is in the image and the next one is set up if there is one, or STATUS has been entered with the write fault |
| `Controllers.Controller.NextDataIn` | cpp/controllers/controller.cpp:366-392 | from one sent chunk to the next or to STATUS: the invariant holds and the command is closer to its end |
| `Controllers.Controller.NextDataOut` | cpp/controllers/controller.cpp:436-493 | the same from one received chunk |
| `Controllers.Controller.BeginRead` | cpp/devices/disk.cpp:214-230 | a READ within the capacity starts in DATA IN, or ends with a read error |
| `Controllers.Controller.BeginWrite` | cpp/devices/disk.cpp:251-265 | a WRITE within the capacity starts in DATA OUT |
| `Controllers.Controller.Execute` | cpp/controllers/controller.cpp:176-209 | the command in the CDB is carried out as its bytes, the LUN and the state of the drive demand, and it has flushed the cache if it is one that does |
| `Controllers.Controller.SynchronizeCache` | cpp/devices/disk.cpp:94-98 | the cache is flushed and the command succeeds; its record holds that the file is the image unless a file access has failed, and every later step keeps this |
| `Controllers.Controller.SeekOrVerify` | cpp/devices/disk.cpp:239-249 | the range is checked, and an accepted VERIFY flushes the cache |
| `Controllers.Controller.Command` | cpp/controllers/controller.cpp:104-174 | without faults the bytes the host has put out are taken as one command and it is started; the invariant holds with or without faults |
| `Controllers.Controller.ParseMessage` | cpp/controllers/controller.cpp:554-627 | the LUN is that of the last IDENTIFY message; without a fault nothing is sent if and only if fewer than two bytes 0x01 stand in front of the first ABORT or BUS DEVICE RESET, and otherwise the first byte sent is MESSAGE REJECT |
| `Transfers.RejectionsOfMessages` | cpp/controllers/controller.cpp:560-580 | IDENTIFY with a SYNCHRONOUS DATA TRANSFER REQUEST has two bytes 0x01, so MESSAGE REJECT is sent; IDENTIFY with a WIDE DATA TRANSFER REQUEST for 8 bits has one, so it is not answered |
| `Transfers.IdentifyIsHeard` | cpp/controllers/controller.cpp:579-583 | the lower five bits of the last IDENTIFY message, in front of or behind any other messages, are the LUN |
| `Transfers.LeavingForgets` | cpp/controllers/controller.cpp:563-577 | behind ABORT or BUS DEVICE RESET no LUN is identified, whatever follows |
| `Transfers.FirstLeavingCounts` | cpp/controllers/controller.cpp:563-577 | the device is reset if and only if the first of these two messages is BUS DEVICE RESET and the LUN at this point is 0 |
| `Controllers.Controller.AwaitSelection` | cpp/controllers/controller.cpp:59-84 | the target answers if and only if SEL is asserted without BSY |
| `Controllers.Controller.Selection` | cpp/controllers/controller.cpp:84-102 | the target waits for the end of the selection; then it takes messages if ATN is asserted, and otherwise, without a fault, carries out the command that the host puts out |
| `Controllers.Controller.ProcessMessage` | cpp/controllers/controller.cpp:629-645 | behind the last message, without a fault, the command that the host puts out is carried out for the LUN of the messages, on a disk that has been reset if they say so |
| `Controllers.Controller.MsgIn` | cpp/controllers/controller.cpp:647-656 | behind the message of a command the bus is free, or the linked command that the host puts out is carried out |
| `Controllers.Controller.MsgOut` | cpp/controllers/controller.cpp:254-278 | as long as ATN is asserted the byte that has arrived joins the messages and another one follows; behind the last one the invariant of the command that follows holds |
| `Controllers.Controller.Process` | cpp/controllers/controller.cpp:39-56 | one step in any state with any behaviour of the initiator keeps the invariant; in a data, status or message phase of a command that is not linked it comes closer to BUS FREE; as long as there has been no ABORT or BUS DEVICE RESET message every command is on a busy bus |
| `Controllers.Controller.ProcessOnController` | cpp/controllers/abstract_controller.cpp:104-123 | no number of steps leaves the reachable states, and in every run without an ABORT or BUS DEVICE RESET message the lines decode as the phase of the controller, outside SELECTION |
| `Controllers.Controller.PhaseIsShown` | cpp/controllers/controller.cpp:39-326 | the same for a single state: without these two messages so far the lines decode as the phase |
| `Controllers.Controller.FinishCommand` | cpp/controllers/abstract_controller.cpp:119-121 | from a data, status or message phase a command that is not linked reaches BUS FREE in finitely many steps: phase, remaining length and pending length decrease |
| `Controllers.Controller.RunToMessage` | cpp/controllers/controller.cpp:39-326 | every command, linked or not, from COMMAND to the end of its message or BUS FREE: without a fault on the bus it is the command the host has put out, and the initiator has its data, one status byte and one message, whatever file accesses fail; if none fails the answer is the exact one; in any case the image changes within the range of a WRITE only |
| `Controllers.Controller.RunCommand` | cpp/controllers/controller.cpp:39-326 | the same to BUS FREE for a command that is not linked: exactly one status byte, then one COMMAND COMPLETE; behind a command that flushes the cache the file is the image unless a file access has failed |
| `Controllers.Controller.RefuseLinkedRead` | cpp/controllers/controller.cpp:394-419 | a run of a linked READ that is refused: CHECK CONDITION, then LINKED COMMAND COMPLETE |
| `Controllers.Controller.RunTwoCommands` | cpp/controllers/controller.cpp:39-656 | two runs on one controller: each is the command that the host has put out, the second one behind the data of the first; a READ behind a WRITE of the same range sends what was written, and behind a command that flushes the cache the file holds it |
| `Controllers.Controller.WriteAndReadBack` | cpp/controllers/controller.cpp:39-656 | a host that puts out a WRITE with its data and a READ of the same range, each with 6, 10 or 16 bytes, gets its data back, from any reachable state of a ready disk, if nothing fails |
| `Controllers.Controller.WriteAndFlush` | cpp/devices/disk.cpp:94-98 | a host that puts out a WRITE with its data and SYNCHRONIZE CACHE, or a VERIFY of a range on the disk, finds the data in the file at their place and nothing else changed, in every caching mode, if nothing fails |
| `Simh.DecodeEncode` | cpp/shared/simh_util.cpp:77-92 | a class and a length are read back from the four bytes they are stored in |
| `Simh.EncodeDecode` | cpp/shared/simh_util.cpp:77-92 | every four bytes are the encoding of what is read from them |
| `Simh.Pad` | cpp/shared/simh_util.cpp:52-57 | the next even number |
| `TapeModel.NextMetaData` | cpp/devices/tape.cpp:784-814 | a metadata read moves exactly four bytes forward, at least four bytes back, or fails; behind the end of the file it gives the end of medium |
| `TapeModel.NextObject` | cpp/devices/tape.cpp:882-924 | finding the next object ends on every file from every position in both directions, and an object found is behind the start, in the direction of the search |
| `TapeModel.FindIsProgress` | cpp/devices/tape.cpp:663-715 | a block that was found for reading lies behind the start of the search, on every file |
| `TapeModel.BackOverObject` | cpp/devices/tape.cpp:784-814 | reading metadata backward from behind an object is the inverse of going forward over it: it gives the same metadata and stops in front of the object |
| `TapeModel.NextObjectForward` | cpp/devices/tape.cpp:882-924 | forward, an erase gap is passed and every other object is found with its kind, one object further |
| `TapeModel.NextObjectBack` | cpp/devices/tape.cpp:882-932 | backward, the same objects are found in reverse, ending in front of them, one object less |
| `TapeModel.FindForward` | cpp/devices/tape.cpp:663-715 | SPACE over n blocks or filemarks stops directly behind the n-th one, with the object location advanced by all objects in between |
| `TapeModel.FindBack` | cpp/devices/tape.cpp:663-715 | SPACE back over n stops directly in front of the n-th one, with the object location taken back by the same objects |
| `TapeModel.SpaceThereAndBack` | cpp/devices/tape.cpp:476-507 | n forward and n back ends in front of the first object of the kind: the position is restored if and only if nothing lies in front of it, the location if and only if only erase gaps do; in front of the first block there can be nothing else, in front of the first filemark there can be blocks |
| `TapeModel.StoppedByFilemark` | cpp/devices/tape.cpp:747-762 | spacing over blocks stops behind a filemark, or in front of it when going back, with the number of blocks still missing |
| `TapeModel.EndOfDataStops` | cpp/devices/tape.cpp:735-745 | end of data is found when asked for and otherwise stops the search in front of it |
| `TapeModel.BeginningStops` | cpp/devices/tape.cpp:717-725 | spacing back from the beginning stops at position and location 0 |
| `TapeModel.LocateFinds` | cpp/devices/tape.cpp:816-836 | LOCATE n stops directly behind the n-th object, with location n |
| `TapeModel.LocateFails` | cpp/devices/tape.cpp:816-836 | if fewer than n objects are recorded the search ends at the end of data |
| `TapeModel.ReadFinds` | cpp/devices/tape.cpp:663-715 | a read passes erase gaps and finds the next block or bad block, or stops behind a filemark |
| `TapeEnds.WordsOfTape` | cpp/devices/tape.cpp:882-914 | what the four bytes of each marker stand for: filemark, bad block, end of medium, gap, and the private markers of the program |
| `TapeEnds.OthersAreSkipped` | cpp/devices/tape.cpp:892-919 | every other marker is skipped, and so is a record of another class, which is counted |
| `TapeEnds.MediumEnds` | cpp/devices/tape.cpp:727-733 | the end of the file ends every forward search with the end of the partition, whatever is searched |
| `TapeEnds.SpaceRunsOut` | cpp/devices/tape.cpp:663-745 | SPACE over more than there is ends behind the objects, with what is missing as information: at the end of data mark, in front of it, or at the end of the file; the end of data is found if and only if there is a mark |
| `TapeEnds.ReadOfNothing` | cpp/devices/tape.cpp:193-256 | a READ behind the last object ends with the end of data or, without a mark, the end of the partition, in both modes |
| `TapeEnds.LocateRunsOut` | cpp/devices/tape.cpp:816-836 | LOCATE of a missing object on a tape without a mark ends with the end of the partition behind the last object |
| `TapeEnds.MarkOfWrite` | cpp/devices/tape.cpp:284-295 | a WRITE puts the four bytes of the mark behind its records if they fit |
| `TapeData.RecordIsObject` | cpp/devices/tape.cpp:258-296 | length, data, padding and length are a well-formed object at an even position |
| `TapeData.RecordsAreBlocks` | cpp/devices/tape.cpp:258-296 | the blocks of a WRITE are a row of well-formed objects |
| `TapeData.FixedStep` | cpp/devices/tape.cpp:258-296 | each block written in fixed mode extends the records written before |
| `TapeData.VariableStep` | cpp/devices/tape.cpp:258-296 | the chunks of a WRITE in variable mode build up one record |
| `TapeData.OverwriteTwice` | cpp/devices/tape.cpp:640-661 | what is written over the end of data mark of an earlier write replaces it |
| `TapeData.FirstDone` | cpp/devices/tape.cpp:193-256 | the first chunk of a READ sets the length to transfer to the shorter of record and request, and reports the difference |
| `TapeData.PartReadGrows` | cpp/devices/tape.cpp:193-256 | each further chunk extends the part of the record that has been read, up to its trailing length |
| `TapeData.BlockStep` | cpp/devices/tape.cpp:193-256 | in fixed mode a chunk is one block of the result |
| `TapeData.ReadOfBlock` | cpp/devices/tape.cpp:193-256 | behind erase gaps, a record of even length is read with the shorter of the two lengths and the difference is reported; a record of odd length is never read |
| `TapeData.ReadOfOther` | cpp/devices/tape.cpp:764-776 | a bad record ends a read with MEDIUM ERROR and a filemark with FILEMARK, directly behind them |
| `TapeData.FixedReadOfBlock` | cpp/devices/tape.cpp:193-256 | a READ in fixed mode takes a block from every record whose length divides the byte count, without an error: it is the record if and only if the record has the length of a block; of a longer one the rest is lost, and behind a shorter one its trailing length is taken for data |
| `TapeData.ShiftedLength` | cpp/devices/tape.cpp:209-209 | the four bytes from which the trailing length of an odd record would be read never hold its length |
| `TapeData.WriteThenReadVariable` | cpp/devices/tape.cpp:126-296 | a record of up to 2^24-1 bytes that was written in variable mode is read back as it was if and only if its length is even, and the tape is behind its trailing length |
| `TapeData.WriteThenReadFixed` | cpp/devices/tape.cpp:126-296 | any number of blocks of an even size that were written in fixed mode are read back as they were, and the tape is behind the trailing length of the last one |
| `TapeData.WritingStaysOnTape` | cpp/devices/tape.cpp:258-296 | behind writing blocks anywhere on a tape the location is the number of objects in front of the position, if it was before, and the objects in front of them are untouched |
| `TapePlaces.FindForwardStays` | cpp/devices/tape.cpp:663-715 | from between two objects of a recorded tape every forward search, for any kind and count and for a READ, ends between two objects with their number as the location, however it ends; a search for the end of data finds it |
| `TapePlaces.FindBackStays` | cpp/devices/tape.cpp:663-715 | so does every backward search |
| `TapePlaces.LocateStays` | cpp/devices/tape.cpp:816-836 | so does the search for an object number that is found; otherwise it ends directly behind the end of data |
| `TapePlaces.ReadVariableStays` | cpp/devices/tape.cpp:193-256 | so does a READ in variable mode, unless it meets a record of odd length, which is an error |
| `TapePlaces.ReadFixedStays` | cpp/devices/tape.cpp:193-256 | so does a READ in fixed mode that delivers its data |
| `TapePlaces.WritingIsBehind` | cpp/devices/tape.cpp:258-296 | so does a WRITE, behind whatever objects: these and the new blocks are on the tape then |
| `Tapes.Tape.ReadNextMetaData` | cpp/devices/tape.cpp:784-814 | one metadata read in either direction, and the position behind it |
| `Tapes.Tape.ReadSimhMetaData` | cpp/devices/tape.cpp:882-924 | the next object in either direction, with position and location |
| `Tapes.Tape.FindNextObject` | cpp/devices/tape.cpp:663-715 | the result of the search over the objects of the file, for every file, position, count and direction; it ends |
| `Tapes.Tape.FindObject` | cpp/devices/tape.cpp:816-836 | the result of the search for an object number, for every file; it ends |
| `Tapes.Tape.Space` | cpp/devices/tape.cpp:476-507 | count 0 does nothing unless the end of data is asked for; otherwise the tape is where the search ends; on a recorded tape it goes from between two objects to between two objects, with the right location |
| `Tapes.Tape.Locate` | cpp/devices/tape.cpp:549-588 | CP, and BT with an address, are refused and leave the tape where it is; otherwise the search starts at the beginning of the tape, and LOCATE 0 is the beginning; if the object exists the tape stays between two objects with the right location |
| `Tapes.Tape.CheckBlockLength` | cpp/devices/tape.cpp:948-978 | in variable mode an incorrect length is reported with the difference, unless SILI is set and the record is the longer one; in fixed mode one that does not divide the byte count, with the blocks that are missing |
| `Tapes.Tape.WriteSimhMetaData` | cpp/devices/tape.cpp:934-946 | metadata are written if twice the position and their size are within the limit, otherwise nothing is |
| `Tapes.Tape.CloseRecord` | cpp/devices/tape.cpp:284-295 | at the end of a record padding, length and, if it fits, the end of data mark; the location advances by one |
| `Tapes.Tape.WriteData` | cpp/devices/tape.cpp:258-296 | one chunk: the length in front if it begins a record, its bytes, and what closes the record if it ends it |
| `Tapes.Tape.TransferFromHost` | cpp/devices/tape.cpp:258-296 | all chunks of a WRITE are its records, and the location has advanced by their number |
| `Tapes.Tape.Write` | cpp/devices/tape.cpp:159-191 | the file is the old one with the records and an end of data mark written over it, the tape is behind the records with the number of objects as location if it was so before, and nothing in front of them changes even if it fails |
| `Tapes.Tape.FindRecord` | cpp/devices/tape.cpp:195-217 | the tape is in front of the data of the next record, or where the search has ended with its error |
| `Tapes.Tape.ReadData` | cpp/devices/tape.cpp:193-256 | one chunk of a record; at the start of a record this record is found and the length adjusted |
| `Tapes.Tape.TransferRecord` | cpp/devices/tape.cpp:193-256 | all chunks of a READ in variable mode are the result of reading one record, for every file |
| `Tapes.Tape.TransferBlocks` | cpp/devices/tape.cpp:193-256 | all chunks of a READ in fixed mode are the result of reading block by block, as long as the lengths of the records divide the byte count; it ends on every file |
| `Tapes.Tape.Read` | cpp/devices/tape.cpp:126-157 | fixed with SILI is refused, length 0 reads nothing, otherwise a record or the blocks; unless it ends in MEDIUM ERROR a READ stays between two objects with the right location |
| `Tapes.Tape.WriteThenRead` | cpp/devices/tape.cpp:126-296 | a WRITE without error, repositioning and a READ of the same length and mode: from an even position even blocks are read back and the tape is behind the last one; a first record of odd length, or at an odd position, is MEDIUM ERROR, except that an odd one at an odd position can be taken for another (OddAtOddIsMissed) |
| `OddRecords.OddOneIsMissed` | cpp/devices/tape.cpp:193-256 | the length behind a record is never found if exactly one of its position and its length is odd |
| `OddRecords.OddAtOddIsMissed` | cpp/devices/tape.cpp:193-256 | if both are odd it is found if and only if the length is a multiple of 65537 and the two bytes behind the record fit |
| `TapeDumps.RestoreOfDump` | cpp/s2pdump/s2pdump_core.cpp:709-808 | a dump, wherever it ends the file, is restored as its blocks and filemarks in order, bad blocks left out, odd lengths included |
| `TapeDumps.RestoreTape` | cpp/s2pdump/s2pdump_core.cpp:753-808 | restoring an arbitrary file ends and issues the writes that reading it object by object gives; a record that the end of the file cuts off is written with what the buffer had before, and a length goes into a field of 24 bits |
| `TapeDumps.DumpRestores` | cpp/s2pdump/s2pdump_core.cpp:709-808 | what was dumped from any row of readable objects restores exactly these objects |
| `TapeDumps.DumpTape` | cpp/s2pdump/s2pdump_core.cpp:709-751 | the dump is the image of all objects up to the end of data mark or the end of the file, with at most one SPACE back for each of them |
| `TapeDumps.DumpIsTape` | cpp/s2pdump/s2pdump_core.cpp:709-751 | a dump is itself a tape that holds the dumped objects one directly behind the other, and dumping it gives the same dump |
| `TapeDumps.ReadAhead` | cpp/devices/tape.cpp:193-256 | what one READ of the dump reports for the next object behind erase gaps: its bytes and the difference in length, an error, a filemark or the end |
| `TapeDumps.SpaceBackOver` | cpp/s2pdump/s2pdump_executor.cpp:111-118 | SPACE back over one block brings the tape in front of this block |
| `TapeDumps.Executor.SpaceBack` | cpp/s2pdump/s2pdump_executor.cpp:111-118 | one block back, counted |
| `TapeDumps.Executor.Evaluate` | cpp/s2pdump/s2pdump_executor.cpp:163-215 | a shorter record is a result with its own length, a longer one is read again with its length, a medium error is read again once |
| `TapeDumps.Executor.ReadOnce` | cpp/s2pdump/s2pdump_executor.cpp:137-162 | one attempt gives the next object, or is repeated in front of it |
| `TapeDumps.Executor.ReadRecord` | cpp/s2pdump/s2pdump_executor.cpp:137-217 | the next object is returned with its exact length and bytes, with at most one SPACE back, and the tape is behind it |
| `Crc.Crc32` | cpp/devices/tap_driver.cpp:342-353 | the loop over bytes and bits is the check sequence as a linear register |
| `Crc.ShiftsAreLinear` | cpp/devices/tap_driver.cpp:344-350 | shifting the register is linear over exclusive or |
| `Crc.ShiftsAreInjective` | cpp/devices/tap_driver.cpp:344-350 | shifting loses nothing |
| `Crc.RegisterIsInjective` | cpp/devices/tap_driver.cpp:342-353 | different registers stay different behind the same bytes |
| `Crc.RegisterOfWord` | cpp/devices/tap_driver.cpp:342-353 | up to four bytes act on the register as one word |
| `Crc.Residue` | cpp/devices/tap_driver.cpp:342-381 | the check over any frame with its check sequence, low byte first, is 0x2144DF1C |
| `CrcLaw.FcsIsRemainder` | cpp/devices/tap_driver.cpp:342-353 | the check sequence of every message is the definition of section 3.2.9 of IEEE 802.3: with its first 32 bits complemented the message times x^32 is divided by the generating polynomial, and the remainder is complemented |
| `CrcLaw.RegisterIsRemainder` | cpp/devices/tap_driver.cpp:342-353 | feeding bits into the register is the division of polynomials, with the initial register added to the first 32 coefficients |
| `CrcLaw.LeadingZeroIsNoticed` | cpp/devices/tap_driver.cpp:342-353 | a zero in front of a frame changes its check sequence |
| `Crc.BurstIsDetected` | cpp/devices/tap_driver.cpp:342-353 | two frames that differ only within four consecutive bytes have different check sequences |
| `Crc.DamageIsNoticed` | cpp/devices/tap_driver.cpp:342-381 | a frame with its check sequence that was changed within four consecutive bytes has another residue |
| `Crc.Receive` | cpp/devices/tap_driver.cpp:355-381 | a frame is handed on with four bytes that give the residue, and no frame stays no frame |
| `ScsiGenerics.GetOfSet` | cpp/shared/sg_util.cpp:97-132 | a number that fits is read back from the field it was stored in |
| `ScsiGenerics.ConvertedIsSame` | cpp/devices/scsi_generic.cpp:56-90 | READ(6) and WRITE(6) rewritten with 10 bytes have the same start and direction, and name the same blocks if and only if the count is not 0 |
| `ScsiGenerics.TransferIsTaken` | cpp/shared/command_meta_data.cpp:42-118 | a READ or WRITE with 6, 10, 12 or 16 bytes is taken for exactly this direction, start and count; all its blocks are moved if and only if they are less than 2 GiB and it is not a six byte command for 256 blocks |
| `ScsiGenerics.FieldsAreDecoded` | cpp/shared/sg_util.cpp:77-132 | the fields from which sub-commands are built are those that the device reads |
| `ScsiGenerics.ByteCountIsTruncated` | cpp/devices/scsi_generic.cpp:81-88 | the byte count stands for whole blocks, and for all blocks of the command if and only if they are less than 2 GiB |
| `ScsiGenerics.FourGigabytesAreLost` | cpp/devices/scsi_generic.cpp:81-88 | a READ(16) of 0x800000 blocks of 512 bytes moves nothing |
| `ScsiGenerics.TilesGrow` | cpp/devices/scsi_generic.cpp:157-235 | a range directly behind a tiling extends it |
| `ScsiGenerics.ScsiGeneric.SetBlockCount` | cpp/shared/sg_util.cpp:97-123 | the count is stored and the start is kept |
| `ScsiGenerics.ScsiGeneric.UpdateStartBlock` | cpp/shared/sg_util.cpp:77-95 | the start moves on by the blocks transferred, if it fits its field |
| `ScsiGenerics.ScsiGeneric.ReadWriteData` | cpp/devices/scsi_generic.cpp:157-235 | one sub-command moves the next blocks, directly behind those before, and the CDB is at the blocks that follow; a failed one moves nothing |
| `ScsiGenerics.ScsiGeneric.TransferIn` | cpp/devices/scsi_generic.cpp:131-134 | the sub-commands tile the blocks that the byte count stands for, and the joined data are those of one unsplit READ; all but the last one move 64 KiB |
| `ScsiGenerics.ScsiGeneric.TransferOut` | cpp/devices/scsi_generic.cpp:136-155 | the sub-commands tile the blocks that the byte count stands for, and the device is as behind one unsplit WRITE; if one fails, as behind a WRITE of the blocks so far; all but the last one move 64 KiB |
| `ScsiGenerics.ScsiGeneric.Dispatch` | cpp/devices/scsi_generic.cpp:56-129 | the transfer starts at the start of the original command, with six bytes or more; its byte count is the product in 32 bits, as a signed number |
| `ScsiGenerics.ScsiGeneric.Read` | cpp/devices/scsi_generic.cpp:56-155 | the sub-commands of a READ tile the range it asks for, and its data are those of one unsplit READ, if and only if it is less than 2 GiB and not a six byte command with count 0 |
| `ScsiGenerics.ScsiGeneric.Write` | cpp/devices/scsi_generic.cpp:56-155 | the same for a WRITE; whatever fails, the device is as behind a WRITE of some of the first blocks |

## Left out

Bus

- GPIO, IRQ control, delays, sockets and the wall clock: a wait either sees its level or is given up.
- ATN inside the MESSAGE OUT handshake: `TargetReceiveHandShake` may release ATN, at any byte.
- RST: once seen asserted by the target it stays asserted until the target has reset itself.
- DataInHandshake.NoTimeoutDelivers: the two sides agree on the length; for other lengths `CountedBytesAreSentBytes`,
  `RunHasSendOutcome` and `EveryRunEnds` hold.
- TargetBuses.Bus.TargetSendHandShake: each call meets an initiator at the beginning of its own call; that several
  calls of the target are one run is part of `DataInHandshake` (the ends of the chunks) only. InitiatorMsgInHandShake,
  which does not check the phase again behind its byte, is not modelled.

Disk and cache

- Failed loads: behind a failed load an empty slot can be picked as the oldest one and its null track is used. The
  model ends this access as a failed one (`Access.NullTrack`).
- The number of sectors per access: the track cache is called with one sector at a time, as the disk does.
- Growing files: a READ LONG or WRITE LONG of more than a sector stays within the file.
- READ LONG and WRITE LONG are modelled up to their data, not through the controller, and without the information field
  for a wrong length. The bounds check of a WRITE LONG with the sector count of an earlier command is not modelled.
- Block size changes and statistics. The stream of a saved track is closed at once, and errors of closing it, which the
  code does not see, do not occur.
- DiskCaches.DiskCache.AssignTrack: the cached tracks are shown to be the most recently used ones as long as no file
  access has failed and the serial number has not wrapped around.

Controller

- Requests.RangeIsPlan: ranges accepted only because their end wraps around 64 bits and transfers of 2 GiB and more,
  which the code starts with truncated counters. `Plan.Unmodelled` stands for them: the model ends such a command in
  some way, and no contract promises anything about its answer or the image.
- One disk as LUN 0. REQUEST SENSE, INQUIRY, FORMAT UNIT, MODE SELECT and MODE SENSE, RESERVE and RELEASE, SEND
  DIAGNOSTIC, START/STOP, PREVENT REMOVAL, READ CAPACITY, READ FORMAT CAPACITIES, READ DEFECT DATA, READ LONG and WRITE
  LONG and REPORT LUNS: nothing is promised for them (`Plan.Unmodelled`). Deferred sense data and reservations.
- Controllers.Controller.RunCommand: a command with the link bit set ends behind its message, because the next one
  follows.
- Controllers.Controller.RunTwoCommands: the selection between the two commands is one step of the initiator, without
  ATN.
- Controllers.Controller.WriteAndReadBack: the host has put out both commands before the first one begins.
- Controllers.Controller.ProcessOnController: has a bound on its steps, because an initiator that keeps SEL or ATN
  asserted, or links commands for ever, can keep the loop going. `FinishCommand` has none.
- Transfers.LinesShowPhase: does not cover commands behind ABORT or BUS DEVICE RESET, which are still received with
  BSY released (`job.busy` is false); the invariant holds, but nothing is said about lines and bytes sent. In
  SELECTION, and in BUS FREE while SEL is asserted, the initiator determines the lines.
- Messages: more than 512 rejected extended messages in one MESSAGE OUT phase; a command phase that would follow an
  RST seen while a message is rejected.
- The methods for STATUS, MESSAGE IN, DATA IN and DATA OUT are split into entering the phase and being in it.
- Mode pages, the SASI and ICD differences other than the leading 0x1f, other device types, the registry of
  controllers.

Tape

- Tar files, ERASE, growing files, WRITE FILEMARKS, READ POSITION, the forms of READ and WRITE with an explicit
  address, the sense information of a read error, stream errors other than the end of the file.
- The stream position is the tape position. Bytes behind the end of the file that a write skips are 0.
- TapeModel.LocateFinds: tapes with blocks, bad blocks, filemarks and erase gaps; private and reserved markers and
  descriptions are counted by the device but not by LOCATE. `Find` and `Locate` are defined and end on any bytes.
- Tapes.Tape.TransferBlocks: says nothing about the data when a READ in fixed mode meets a record whose length does not
  divide the byte count, and which is reported.
- Tapes.Tape.WriteThenRead: nothing is said about odd records at an odd position of which the first one can be taken
  for the next one, or for what lies behind a tape without room for the end of data, and about a block size of 2^24 or
  more that is odd or at an odd position.
- Tapes.Tape.Write: fewer than 2^31 bytes, because the byte count of the device is a signed number of 32 bits; a record
  of variable length has fewer than 2^28.
- TapeDumps.DumpTape: the tape holds records of even length up to 0xffffff; records of odd length end in MEDIUM ERROR.
- TapeDumps.RestoreTape: how a tape answers a WRITE whose length does not fit into its field is not modelled.
- TapeDumps.Executor.ReadOnce: READ and the REQUEST SENSE behind it are one call with one result.

CRC and SCSI generic

- Crc.Receive: reading the frame from the network device is a parameter.
- ScsiGenerics.ScsiGeneric.Dispatch: block transfers whose block size divides 65536 and whose start and count do not
  overflow the address field; residual counts of the SG driver, FORMAT UNIT and other commands are not modelled, and
  the address field of the six byte forms is taken as 24 bits, as the code does.
- ScsiGenerics.Device.Execute: the driver refuses a request of more than 64 KiB, as the header of the source says.
- The block size read from the device, sense data evaluation and timeouts.
