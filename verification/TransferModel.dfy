// The states of a command in a target's controller, as values, and what each phase preserves.
module Transfers {
  import opened Basics
  import opened SignalWord
  import opened HandshakeOutcomes
  import opened TargetBuses
  import opened FlatImage
  import opened Disks
  import opened Requests

  const GOOD: Byte := 0x00
  const CHECK_CONDITION: Byte := 0x02
  const INTERMEDIATE: Byte := 0x10
  const COMMAND_COMPLETE: Byte := 0x00
  const ABORT: Byte := 0x06
  const MESSAGE_REJECT: Byte := 0x07
  const LINKED_COMMAND_COMPLETE: Byte := 0x0a
  const LINKED_COMMAND_COMPLETE_WITH_FLAG: Byte := 0x0b
  const BUS_DEVICE_RESET: Byte := 0x0c

  // The transfer counters of the controller.
  datatype Counters = Counters(offset: nat, remaining: nat, current: nat, chunk: nat)

  // The controller, the bus and the disk at one moment.
  datatype Snapshot = Snapshot(
    phase: BusPhase, k: Counters, buffer: seq<Byte>, status: Byte, sense: Sense, linked: bool, flag: bool, atn: bool,
    lines: set<Line>, toHost: seq<Sent>, fromHost: seq<Byte>, faults: nat,
    size: nat, blocks: nat, chunkSectors: nat, next: nat, usable: bool, image: seq<Byte>, failures: nat)

  datatype Progress = Idle | Active | Finished

  // The command being processed.
  datatype Job = Job(
    progress: Progress,
    busy: bool,              // BSY is asserted; false behind an ABORT or BUS DEVICE RESET message
    plan: Plan,
    moved: nat,              // sectors moved over the bus
    base: seq<Sent>,         // what the initiator had received before the command
    host: seq<Byte>,         // what the initiator had to send when the data phase began
    image0: seq<Byte>,       // the image before the command
    data: seq<Byte>,         // data sent in DATA IN
    received: seq<Byte>,     // data received in DATA OUT
    stored: nat,             // bytes of it that are part of the image
    success: bool,           // the status of the command is GOOD
    linked: bool, flag: bool,
    faults0: nat, failures0: nat,
    faults1: nat,            // the faults when the bytes of the command had been taken
    syncs: bool)             // the command has flushed the cache

  // SetTransferSize, UpdateTransferLength and UpdateOffsetAndLength
  function TransferSize(k: Counters, length: nat, size: nat): Counters {
    k.(remaining := length, chunk := Min(length, size))
  }

  function Advance(k: Counters, length: nat): Counters
    requires length <= k.remaining
  {
    k.(remaining := k.remaining - length, chunk := Min(k.chunk, k.remaining - length))
  }

  function Shift(k: Counters): Counters {
    k.(offset := k.offset + k.current, current := 0)
  }

  const ONE: Counters := Counters(0, 1, 1, 1)
  const ONE_DONE: Counters := Counters(1, 1, 0, 1)

  // Where in its data a disk command is: chunks of c sectors of b bytes, moved sectors done.
  predicate AtChunk(k: Counters, b: nat, c: nat, count: nat, moved: nat) {
    && 0 < b && 0 < c && (c == 1 || c == count) && moved + c <= count
    && k == Counters(0, (count - moved) * b, c * b, c * b)
  }

  predicate AfterSend(k: Counters, b: nat, c: nat, count: nat, moved: nat) {
    && 0 < b && 0 < c && (c == 1 || c == count) && c <= moved <= count
    && k == Counters(c * b, (count - moved + c) * b, 0, c * b)
  }

  predicate AfterReceive(k: Counters, b: nat, c: nat, count: nat, moved: nat) {
    && 0 < b && 0 < c && (c == 1 || c == count) && moved + c <= count
    && k == Counters(c * b, (count - moved) * b, 0, c * b)
  }

  // The chunk never exceeds what remains, and a transfer ends exactly with its last sector.
  lemma ChunkWithinRemaining(k: Counters, b: nat, c: nat, count: nat, moved: nat)
    requires AtChunk(k, b, c, count, moved)
    ensures 0 < k.current == k.chunk <= k.remaining
    ensures AfterSend(Shift(k), b, c, count, moved + c) && AfterReceive(Shift(k), b, c, count, moved)
  {
    assert (count - moved) * b == c * b + (count - moved - c) * b;
    MultipleIsAtLeast(c, b);
  }

  lemma SentChunkAdvances(k: Counters, b: nat, c: nat, count: nat, moved: nat)
    requires AfterSend(k, b, c, count, moved)
    ensures k.chunk <= k.remaining && Advance(k, k.chunk).remaining == (count - moved) * b
    ensures Advance(k, k.chunk).remaining == 0 <==> moved == count
    ensures moved < count ==>
              c == 1 && Advance(k, k.chunk) == Counters(c * b, (count - moved) * b, 0, c * b)
                && c * b <= (count - moved) * b
  {
    assert (count - moved + c) * b == c * b + (count - moved) * b;
    if moved < count {
      MultipleIsAtLeast(count - moved, b);
    }
  }

  lemma ReceivedChunkAdvances(k: Counters, b: nat, c: nat, count: nat, moved: nat)
    requires AfterReceive(k, b, c, count, moved)
    ensures k.chunk <= k.remaining && Min(k.chunk, k.remaining) == c * b && 0 < c * b
    ensures Advance(k, k.chunk).remaining == 0 <==> moved + c == count
    ensures moved + c < count ==>
              var a := Advance(k, k.chunk);
              AtChunk(a.(offset := 0, current := a.chunk), b, c, count, moved + c)
    ensures moved + c == count ==> Advance(k, k.chunk).chunk == 0
  {
    assert (count - moved) * b == c * b + (count - moved - c) * b;
    MultipleIsAtLeast(c, b);
    if moved + c < count {
      MultipleIsAtLeast(count - moved - c, b);
    }
  }

  // The bytes are n sectors of the image from start on.
  predicate IsSlice(data: seq<Byte>, image: seq<Byte>, b: nat, start: nat, n: nat) {
    start * b + n * b <= |image| && data == image[start * b..start * b + n * b]
  }

  lemma FrontOfWrite(buffer: seq<Byte>, data: seq<Byte>)
    requires |data| <= |buffer|
    ensures WriteAt(buffer, 0, data)[..|data|] == data
  {
  }

  lemma SliceGrows(image: seq<Byte>, b: nat, start: nat, moved: nat, c: nat, data: seq<Byte>, chunk: seq<Byte>)
    requires IsSlice(data, image, b, start, moved) && IsSlice(chunk, image, b, start + moved, c)
    ensures IsSlice(data + chunk, image, b, start, moved + c)
  {
    assert (start + moved) * b == start * b + moved * b && (moved + c) * b == moved * b + c * b;
    var x, y, z := start * b, (start + moved) * b, start * b + (moved + c) * b;
    assert image[x..z] == image[x..y] + image[y..z];
  }

  lemma EmptySlice(image: seq<Byte>, b: nat, start: nat, count: nat)
    requires start * b + count * b <= |image|
    ensures IsSlice([], image, b, start, 0)
  {
  }

  lemma WriteGrows(image: seq<Byte>, offset: nat, first: seq<Byte>, second: seq<Byte>)
    requires offset + |first| + |second| <= |image|
    ensures WriteAt(WriteAt(image, offset, first), offset + |first|, second) == WriteAt(image, offset, first + second)
  {
  }

  // The status byte and the message byte that end a command.
  function StatusByte(status: Byte, linked: bool): Byte {
    if linked && status == GOOD then INTERMEDIATE else status
  }

  function CompletionMessage(linked: bool, flag: bool): Byte {
    if linked then (if flag then LINKED_COMMAND_COMPLETE_WITH_FLAG else LINKED_COMMAND_COMPLETE) else COMMAND_COMPLETE
  }

  // The target's lines show the phase.
  predicate Signals(v: Snapshot, busy: bool) {
    && REQ !in v.lines
    && (v.phase.BusFreePhase? ==> BSY !in v.lines)
    && (v.phase.SelectionPhase? ==> BSY in v.lines)
    && (IsTransferPhase(v.phase) ==> v.lines * TYPE_LINES == PhaseLines(v.phase))
    && (IsTransferPhase(v.phase) && busy ==> BSY in v.lines && SEL !in v.lines)
  }

  // The image is the one before the command, except for the stored part of the data of a WRITE, and this data is what
  // the host had to send, except for at most one wrong byte for each fault.
  predicate Effect(v: Snapshot, j: Job) {
    if j.plan.Unmodelled? then true
    else if j.plan.Writing? then
      && Heard(j.received, j.host, v.faults - j.faults0)
      && j.stored <= |j.received| && j.stored <= j.plan.count * v.size
      && j.plan.start * v.size + j.stored <= |j.image0|
      && v.image == WriteAt(j.image0, j.plan.start * v.size, j.received[..j.stored])
    else v.image == j.image0
  }

  predicate Logged(v: Snapshot, j: Job, more: seq<Sent>) {
    j.busy ==> v.toHost == j.base + Tagged(DataInPhase, j.data) + more
  }

  predicate InRange(v: Snapshot, j: Job)
    requires j.plan.Reading? || j.plan.Writing?
  {
    && j.plan.start + j.plan.count <= v.blocks
    && j.plan.start * v.size + j.plan.count * v.size <= |j.image0|
    && v.usable && v.status == GOOD && j.progress.Active?
  }

  predicate HoldsChunk(v: Snapshot, j: Job)
    requires j.plan.Reading? && v.chunkSectors * v.size <= |v.buffer|
  {
    && v.next == j.plan.start + j.moved + v.chunkSectors
    && IsSlice(v.buffer[..v.chunkSectors * v.size], j.image0, v.size, j.plan.start + j.moved, v.chunkSectors)
  }

  predicate InRead(v: Snapshot, j: Job) {
    && j.plan.Reading? && InRange(v, j) && Logged(v, j, []) && j.received == [] && v.fromHost == j.host
    && IsSlice(j.data, j.image0, v.size, j.plan.start, j.moved)
    && v.chunkSectors * v.size <= |v.buffer|
    && (if v.k.current != 0
        then AtChunk(v.k, v.size, v.chunkSectors, j.plan.count, j.moved) && HoldsChunk(v, j)
        else AfterSend(v.k, v.size, v.chunkSectors, j.plan.count, j.moved) && v.next == j.plan.start + j.moved)
  }

  predicate InWrite(v: Snapshot, j: Job) {
    && j.plan.Writing? && InRange(v, j) && Logged(v, j, []) && j.data == []
    && v.next == j.plan.start + j.moved && j.stored == j.moved * v.size
    && v.chunkSectors * v.size <= |v.buffer|
    && |j.received| <= |j.host| && v.fromHost == j.host[|j.received|..]
    && (if v.k.current != 0
        then AtChunk(v.k, v.size, v.chunkSectors, j.plan.count, j.moved) && |j.received| == j.stored
        else AfterReceive(v.k, v.size, v.chunkSectors, j.plan.count, j.moved)
             && |j.received| == j.stored + v.chunkSectors * v.size
             && v.buffer[..v.chunkSectors * v.size] == j.received[j.stored..])
  }

  const READ_FAILED: Sense := Sense(MediumError, ReadError)
  const WRITE_FAILED: Sense := Sense(MediumError, WriteFault)

  // What the status of a command says about its data.
  predicate Outcome(v: Snapshot, j: Job) {
    && |j.received| <= |j.host| && v.fromHost == j.host[|j.received|..]
    && match j.plan
       case Nothing(error) =>
         && j.data == [] && (j.success <==> error.None?) && (error.Some? ==> v.sense == error.value)
       case Reading(start, count) =>
         && j.moved <= count && IsSlice(j.data, j.image0, v.size, start, j.moved)
         && (if j.success then j.moved == count && v.usable else v.sense == READ_FAILED)
         && (v.failures == j.failures0 && v.faults == j.faults0 ==> j.success)
       case Writing(start, count) =>
         && j.data == []
         && (if j.success then j.stored == |j.received| == count * v.size && v.usable else v.sense == WRITE_FAILED)
         && (v.failures == j.failures0 && v.faults == j.faults0 ==> j.success)
       case Unmodelled => true
  }

  function Code(j: Job): Byte {
    StatusByte(if j.success then GOOD else CHECK_CONDITION, j.linked)
  }

  predicate InStatus(v: Snapshot, j: Job) {
    && Outcome(v, j) && j.progress.Active?
    && (if v.k.current != 0 then v.k == ONE && [Code(j)] <= v.buffer && Logged(v, j, [])
        else v.k == ONE_DONE && Logged(v, j, [Sent(StatusPhase, Code(j))]))
  }

  function LastByte(j: Job): Byte {
    CompletionMessage(j.linked, j.flag)
  }

  predicate InMsgIn(v: Snapshot, j: Job) {
    && Outcome(v, j) && j.progress.Active?
    && (if v.k.current != 0 then v.k == ONE && [LastByte(j)] <= v.buffer && Logged(v, j, [Sent(StatusPhase, Code(j))])
        else v.k == ONE_DONE && Logged(v, j, [Sent(StatusPhase, Code(j)), Sent(MsgInPhase, LastByte(j))]))
  }

  // Behind a command either the initiator has its data, one status byte and one message byte, or there was a fault.
  predicate Done(v: Snapshot, j: Job) {
    && (j.progress.Finished? ==>
          && Outcome(v, j)
          && Logged(v, j, [Sent(StatusPhase, Code(j)), Sent(MsgInPhase, LastByte(j))]))
    && (j.progress.Active? ==> v.faults > j.faults0)
  }

  predicate InMsgOut(v: Snapshot) {
    v.k == ONE || v.k == ONE_DONE
  }

  predicate Inv(v: Snapshot, j: Job) {
    && Signals(v, j.busy) && |v.buffer| >= 512
    && v.faults >= j.faults1 >= j.faults0 && v.failures >= j.failures0
    && (RST in v.lines && j.progress.Active? ==> v.faults > j.faults0)
    && (!j.progress.Idle? ==> Effect(v, j))
    && (v.atn ==> v.phase.MsgOutPhase?)
    && match v.phase
       case BusFreePhase => Done(v, j)
       case SelectionPhase => j.progress.Idle? && j.busy
       case MsgOutPhase => j.progress.Idle? && j.busy && InMsgOut(v)
       case DataInPhase => InRead(v, j) && v.linked == j.linked && v.flag == j.flag
       case DataOutPhase => InWrite(v, j) && v.linked == j.linked && v.flag == j.flag
       case StatusPhase => InStatus(v, j) && v.linked == j.linked && v.flag == j.flag
       case MsgInPhase => InMsgIn(v, j) && v.linked == j.linked && v.flag == j.flag
       case _ => false
  }

  // Between two steps the initiator has changed its own lines.
  predicate Acquired(v: Snapshot, w: Snapshot) {
    && w == v.(lines := w.lines, faults := w.faults) && w.faults >= v.faults
    && w.lines - {SEL, ATN, RST, ACK} == v.lines - {SEL, ATN, RST, ACK}
    && (BSY in v.lines && SEL !in v.lines ==> SEL !in w.lines)
    && (w.faults == v.faults && RST !in v.lines ==> RST !in w.lines)
  }

  lemma SameTargetLines(a: set<Line>, b: set<Line>)
    requires a - {SEL, ATN, RST, ACK} == b - {SEL, ATN, RST, ACK}
    ensures (REQ in a <==> REQ in b) && (BSY in a <==> BSY in b) && a * TYPE_LINES == b * TYPE_LINES
  {
    forall l: Line | l !in {SEL, ATN, RST, ACK}
      ensures l in a <==> l in b
    {
      assert l in a - {SEL, ATN, RST, ACK} <==> l in b - {SEL, ATN, RST, ACK};
    }
  }

  lemma AcquireKeepsInv(v: Snapshot, j: Job, w: Snapshot)
    requires Inv(v, j) && Acquired(v, w)
    ensures Inv(w, j)
  {
    assert Signals(w, j.busy) by { SameTargetLines(v.lines, w.lines); }
    if j.plan.Reading? {
      assert Outcome(v, j) ==> Outcome(w, j);
    }
  }

  // The target has left the bus, because of a fault if it is dropped.
  predicate Left(v: Snapshot, w: Snapshot) {
    && w.phase.BusFreePhase? && w.faults >= v.faults && w.failures == v.failures
    && w.image == v.image && w.size == v.size && |w.buffer| >= 512 && BSY !in w.lines && REQ !in w.lines && !w.atn
  }

  predicate Dropped(v: Snapshot, w: Snapshot) {
    Left(v, w) && w.faults > v.faults
  }

  lemma DropKeepsInv(v: Snapshot, j: Job, w: Snapshot)
    requires Inv(v, j) && !v.phase.BusFreePhase? && Dropped(v, w)
    ensures Inv(w, j)
  {
  }

  predicate StatusEntered(v: Snapshot, w: Snapshot)
    requires v.buffer != []
  {
    w == v.(phase := StatusPhase, k := ONE, buffer := v.buffer[0 := StatusByte(v.status, v.linked)],
            lines := LinesFor(v.lines, StatusPhase))
  }

  // The target reports CHECK CONDITION.
  predicate Failed(v: Snapshot, w: Snapshot, s: Sense) {
    && w == v.(phase := StatusPhase, k := ONE, buffer := w.buffer, status := CHECK_CONDITION, sense := s,
               lines := w.lines, faults := w.faults)
    && |w.buffer| == |v.buffer| > 0 && w.buffer[0] == CHECK_CONDITION && w.faults >= v.faults
    && REQ !in w.lines && RST !in w.lines && w.lines * TYPE_LINES == PhaseLines(StatusPhase)
    && (BSY in v.lines && SEL !in v.lines ==> BSY in w.lines && SEL !in w.lines)
  }

  // A handshake has moved the whole buffer to the initiator, which may have given up a wait nevertheless.
  predicate SentStep(v: Snapshot, w: Snapshot) {
    && v.k.offset + v.k.current <= |v.buffer| && w.faults >= v.faults
    && w == v.(toHost := v.toHost + Tagged(PhaseOfLines(v.lines), v.buffer[v.k.offset..v.k.offset + v.k.current]),
               k := Shift(v.k), faults := w.faults)
  }

  // A handshake that has moved everything, and one that has not
  lemma SentAll(v: Snapshot, u: Snapshot, bytes: seq<Byte>, length: nat, arrived: seq<Byte>)
    requires v.k.offset + v.k.current <= |v.buffer| && bytes == v.buffer[v.k.offset..v.k.offset + v.k.current]
    requires u.faults >= v.faults && SendOutcome(bytes, length, arrived, u.faults - v.faults) && length == |bytes|
    requires u == v.(toHost := v.toHost + Tagged(PhaseOfLines(v.lines), arrived), faults := u.faults)
    ensures SentStep(v, u.(k := Shift(u.k)))
  {
  }

  lemma SentInVain(v: Snapshot, u: Snapshot, w: Snapshot, bytes: seq<Byte>, length: nat, arrived: seq<Byte>)
    requires u.faults >= v.faults && SendOutcome(bytes, length, arrived, u.faults - v.faults) && length != |bytes|
    requires u == v.(toHost := u.toHost, faults := u.faults) && Left(u, w)
    ensures Dropped(v, w) && w.phase.BusFreePhase? && w.faults > v.faults
  {
  }

  function AfterSending(v: Snapshot, j: Job): Job {
    if v.phase.DataInPhase? && v.k.offset + v.k.current <= |v.buffer| then
      j.(moved := j.moved + v.chunkSectors, data := j.data + v.buffer[v.k.offset..v.k.offset + v.k.current])
    else j
  }

  lemma AppendTwice<T>(a: seq<T>, b: seq<T>, c: seq<T>, all: seq<T>)
    requires all == a + b + []
    ensures all + c == a + (b + c) + []
  {
  }

  lemma SendKeepsLog(v: Snapshot, j: Job, bytes: seq<Byte>)
    requires Signals(v, j.busy) && v.phase.DataInPhase? && Logged(v, j, [])
    ensures j.busy ==>
              v.toHost + Tagged(PhaseOfLines(v.lines), bytes) == j.base + Tagged(DataInPhase, j.data + bytes) + []
  {
    if j.busy {
      PhaseLinesShowPhase(v.lines, v.phase);
      TaggedConcat(DataInPhase, j.data, bytes);
      AppendTwice(j.base, Tagged(DataInPhase, j.data), Tagged(DataInPhase, bytes), v.toHost);
    }
  }

  lemma ChunkIsAtFront(k: Counters, size: nat, chunkSectors: nat, count: nat, moved: nat)
    requires AtChunk(k, size, chunkSectors, count, moved)
    ensures k.offset == 0 && k.current == chunkSectors * size
  {
  }

  lemma SendKeepsRead(v: Snapshot, j: Job, w: Snapshot)
    requires Signals(v, j.busy) && v.phase.DataInPhase? && InRead(v, j) && v.k.current != 0 && SentStep(v, w)
    ensures InRead(w, AfterSending(v, j))
  {
    hide IsSlice;
    hide Tagged;
    hide PhaseOfLines;
    hide AtChunk;
    hide AfterSend;
    ChunkIsAtFront(v.k, v.size, v.chunkSectors, j.plan.count, j.moved);
    var chunk := v.buffer[v.k.offset..v.k.offset + v.k.current];
    assert chunk == v.buffer[..v.chunkSectors * v.size];
    ChunkWithinRemaining(v.k, v.size, v.chunkSectors, j.plan.count, j.moved);
    SliceGrows(j.image0, v.size, j.plan.start, j.moved, v.chunkSectors, j.data, chunk);
    SendKeepsLog(v, j, chunk);
    hide Signals;
  }

  lemma SendKeepsEnd(v: Snapshot, j: Job, w: Snapshot)
    requires Signals(v, j.busy) && v.k == ONE && SentStep(v, w) && v.faults >= j.faults0
    requires (v.phase.StatusPhase? && InStatus(v, j)) || (v.phase.MsgInPhase? && InMsgIn(v, j))
    ensures if v.phase.StatusPhase? then InStatus(w, j) else InMsgIn(w, j)
  {
    var b := v.buffer[0];
    assert v.buffer[0..1] == [b];
    if j.busy {
      PhaseLinesShowPhase(v.lines, v.phase);
      assert Tagged(v.phase, [b]) == [Sent(v.phase, b)];
      var head := j.base + Tagged(DataInPhase, j.data);
      assert v.toHost + [Sent(v.phase, b)]
          == if v.phase.StatusPhase? then head + [Sent(v.phase, b)]
             else head + [Sent(StatusPhase, Code(j)), Sent(v.phase, b)];
    }
  }

  // A successful send keeps the invariant in DATA IN, STATUS and MESSAGE IN.
  lemma SendKeepsInv(v: Snapshot, j: Job, w: Snapshot)
    requires Inv(v, j) && v.k.current != 0 && SentStep(v, w)
    requires v.phase in {DataInPhase, StatusPhase, MsgInPhase}
    ensures Inv(w, AfterSending(v, j))
  {
    if v.phase.DataInPhase? {
      SendKeepsRead(v, j, w);
    } else {
      SendKeepsEnd(v, j, w);
    }
  }

  // A handshake has moved the whole count from the initiator, which may have released ATN, or given up a wait.
  predicate ReceivedStep(v: Snapshot, w: Snapshot, data: seq<Byte>) {
    && |data| == v.k.current <= |v.fromHost| && v.k.offset + v.k.current <= |v.buffer|
    && w.faults >= v.faults && Heard(data, v.fromHost, w.faults - v.faults)
    && (w.lines == v.lines || w.lines == v.lines - {ATN})
    && w == v.(buffer := WriteAt(v.buffer, v.k.offset, data), fromHost := v.fromHost[|data|..], k := Shift(v.k),
               lines := w.lines, faults := w.faults)
  }

  function AfterReceiving(v: Snapshot, j: Job, data: seq<Byte>): Job {
    if v.phase.DataOutPhase? then j.(received := j.received + data) else j
  }

  lemma RestOfRest<T>(all: seq<T>, m: nat, n: nat)
    requires m + n <= |all|
    ensures all[m..][n..] == all[m + n..]
  {
  }

  lemma ReceiveKeepsWrite(v: Snapshot, j: Job, w: Snapshot, data: seq<Byte>)
    requires InWrite(v, j) && v.k.current != 0 && ReceivedStep(v, w, data)
    ensures InWrite(w, AfterReceiving(v.(phase := DataOutPhase), j, data))
  {
    ChunkWithinRemaining(v.k, v.size, v.chunkSectors, j.plan.count, j.moved);
    RestOfRest(j.host, |j.received|, |data|);
    assert w.buffer[..|data|] == data;
    assert (j.received + data)[|j.received|..] == data;
  }

  lemma ReceiveKeepsEffect(v: Snapshot, j: Job, w: Snapshot, data: seq<Byte>)
    requires Effect(v, j) && InWrite(v, j) && ReceivedStep(v, w, data)
    ensures Effect(w, j.(received := j.received + data))
  {
    HeardGrows(j.received, data, j.host, v.faults - j.faults0, w.faults - v.faults);
    assert (j.received + data)[..j.stored] == j.received[..j.stored];
  }

  lemma ReleasedAtn(v: Snapshot, w: Snapshot)
    requires w.lines == v.lines || w.lines == v.lines - {ATN}
    ensures w.lines * TYPE_LINES == v.lines * TYPE_LINES
    ensures forall l :: l != ATN ==> (l in w.lines <==> l in v.lines)
  {
  }

  lemma ReceiveKeepsInv(v: Snapshot, j: Job, w: Snapshot, data: seq<Byte>)
    requires Inv(v, j) && v.k.current != 0 && ReceivedStep(v, w, data) && v.phase in {DataOutPhase, MsgOutPhase}
    ensures Inv(w, AfterReceiving(v, j, data))
  {
    ReleasedAtn(v, w);
    if v.phase.DataOutPhase? {
      ReceiveKeepsWrite(v, j, w, data);
      ReceiveKeepsEffect(v, j, w, data);
    }
  }

  // The next chunk of a READ is in the buffer.
  predicate ChunkRead(v: Snapshot, w: Snapshot) {
    && v.k.chunk <= v.k.remaining
    && w == v.(k := Advance(v.k, v.k.chunk).(offset := 0, current := Advance(v.k, v.k.chunk).chunk), buffer := w.buffer,
               next := v.next + v.chunkSectors, failures := w.failures)
    && w.failures >= v.failures && |w.buffer| >= 512 && v.chunkSectors * v.size <= |w.buffer|
    && IsSlice(w.buffer[..v.chunkSectors * v.size], v.image, v.size, v.next, v.chunkSectors)
  }

  // What fetching the next chunk takes.
  predicate CanFetch(v: Snapshot) {
    && v.k.chunk <= v.k.remaining && v.usable && |v.buffer| >= 512 && REQ !in v.lines && RST !in v.lines
    && v.chunkSectors * v.size <= |v.buffer|
    && (Advance(v.k, v.k.chunk).remaining != 0 ==>
          && v.next + v.chunkSectors <= v.blocks
          && Advance(v.k, v.k.chunk).chunk == v.chunkSectors * v.size <= Advance(v.k, v.k.chunk).remaining)
  }

  lemma FetchShows(v: Snapshot)
    requires CanFetch(v)
    ensures v.k.chunk <= v.k.remaining && v.usable && |v.buffer| >= 512 && REQ !in v.lines && RST !in v.lines
    ensures var k := Advance(v.k, v.k.chunk);
            k.remaining != 0 ==>
              && v.next + v.chunkSectors <= v.blocks && k.chunk == v.chunkSectors * v.size <= k.remaining
              && k.chunk <= |v.buffer|
  {
  }

  lemma ReadMore(v: Snapshot, j: Job)
    requires Inv(v, j) && v.phase.DataInPhase? && v.k.current == 0 && RST !in v.lines
    ensures CanFetch(v) && j.plan.Reading? && j.moved <= j.plan.count
    ensures Advance(v.k, v.k.chunk).remaining == 0 <==> j.moved == j.plan.count
  {
    SentChunkAdvances(v.k, v.size, v.chunkSectors, j.plan.count, j.moved);
  }

  lemma ReadKeepsInv(v: Snapshot, j: Job, w: Snapshot)
    requires Inv(v, j) && v.phase.DataInPhase? && v.k.current == 0 && j.moved < j.plan.count && ChunkRead(v, w)
    ensures Inv(w, j)
  {
    SentChunkAdvances(v.k, v.size, v.chunkSectors, j.plan.count, j.moved);
    MultipleIsAtLeast(v.chunkSectors, v.size);
    assert w.k.current != 0;
    assert AtChunk(w.k, v.size, v.chunkSectors, j.plan.count, j.moved);
    assert HoldsChunk(w, j);
  }

  // The data phase is over: the status is GOOD exactly if all sectors have been moved.
  lemma ReadEnds(v: Snapshot, j: Job, k: Counters, w: Snapshot)
    requires Inv(v, j) && v.phase.DataInPhase? && v.k.current == 0 && j.moved == j.plan.count
    requires StatusEntered(v.(k := k), w)
    ensures Inv(w, j.(success := true)) && Closer(v, w) && SameCommand(j, j.(success := true))
  {
    EnteredStatusShows(v.(k := k), w);
  }

  lemma EnteredStatusShows(v: Snapshot, w: Snapshot)
    requires v.buffer != [] && StatusEntered(v, w)
    ensures w.lines * TYPE_LINES == PhaseLines(StatusPhase)
    ensures forall l :: l !in TYPE_LINES ==> (l in w.lines <==> l in v.lines)
    ensures [StatusByte(v.status, v.linked)] <= w.buffer
  {
  }

  lemma FailedReadKeepsInv(v: Snapshot, j: Job, u: Snapshot, w: Snapshot)
    requires Inv(v, j) && v.phase.DataInPhase? && v.k.current == 0
    requires u == v.(k := u.k, next := u.next, usable := u.usable, failures := u.failures)
    requires u.failures > v.failures && Failed(u, w, READ_FAILED)
    ensures Inv(w, j.(success := false))
  {
    assert [CHECK_CONDITION] <= w.buffer;
  }

  // The chunk of a WRITE is part of the image, and the counters are set for the next one.
  predicate ChunkFits(v: Snapshot) {
    && v.k.chunk <= v.k.remaining && v.chunkSectors * v.size <= |v.buffer|
    && v.next * v.size + v.chunkSectors * v.size <= |v.image|
  }

  function NextChunk(k: Counters, length: nat): Counters
    requires length <= k.remaining
  {
    Advance(k, length).(offset := 0, current := Advance(k, length).chunk)
  }

  function WithChunk(v: Snapshot, failures: nat): Snapshot
    requires ChunkFits(v)
  {
    v.(k := NextChunk(v.k, v.k.chunk), failures := failures,
       next := v.next + v.chunkSectors, image := WriteAt(v.image, v.next * v.size, v.buffer[..v.chunkSectors * v.size]))
  }

  predicate ChunkWritten(v: Snapshot, w: Snapshot) {
    ChunkFits(v) && w.failures >= v.failures && w == WithChunk(v, w.failures)
  }

  function AfterWriting(v: Snapshot, j: Job): Job {
    j.(moved := j.moved + v.chunkSectors, stored := j.stored + v.chunkSectors * v.size)
  }

  lemma WriteMore(v: Snapshot, j: Job)
    requires Inv(v, j) && v.phase.DataOutPhase? && v.k.current == 0 && RST !in v.lines
    ensures CanStore(v) && j.plan.Writing?
    ensures Advance(v.k, v.k.chunk).remaining == 0 <==> j.moved + v.chunkSectors == j.plan.count
  {
    ReceivedChunkAdvances(v.k, v.size, v.chunkSectors, j.plan.count, j.moved);
  }

  lemma ChunkInRange(b: nat, start: nat, moved: nat, c: nat, count: nat)
    requires moved + c <= count
    ensures (start + moved) * b == start * b + moved * b
    ensures (moved + c) * b == moved * b + c * b <= count * b
  {
    assert count * b == moved * b + c * b + (count - moved - c) * b;
  }

  // Storing the next bytes behind the stored ones.
  lemma StoreExtends(image0: seq<Byte>, offset: nat, received: seq<Byte>, stored: nat, chunk: seq<Byte>, n: nat)
    requires stored + |chunk| == |received| && chunk == received[stored..] && n <= |chunk|
    requires offset + stored + n <= |image0|
    ensures WriteAt(WriteAt(image0, offset, received[..stored]), offset + stored, chunk[..n]) ==
            WriteAt(image0, offset, received[..stored + n])
  {
    assert received[..stored] + chunk[..n] == received[..stored + n];
    WriteGrows(image0, offset, received[..stored], chunk[..n]);
  }

  lemma WritePosition(v: Snapshot, j: Job)
    requires InWrite(v, j)
    ensures v.next * v.size == j.plan.start * v.size + j.stored
    ensures j.stored + v.chunkSectors * v.size <= j.plan.count * v.size
  {
    ChunkInRange(v.size, j.plan.start, j.moved, v.chunkSectors, j.plan.count);
  }

  lemma StoreBehind(v: Snapshot, j: Job, at: nat, chunk: seq<Byte>, n: nat, image: seq<Byte>, moved: nat)
    requires j.plan.Writing? && Effect(v, j) && at == j.plan.start * v.size + j.stored
    requires j.stored + |chunk| == |j.received| && chunk == j.received[j.stored..] && n <= |chunk|
    requires at + n <= |v.image| && image == WriteAt(v.image, at, chunk[..n])
    requires j.stored + n <= j.plan.count * v.size
    ensures Effect(v.(image := image), j.(moved := moved, stored := j.stored + n))
  {
    StoreExtends(j.image0, at - j.stored, j.received, j.stored, chunk, n);
  }

  lemma StoreKeepsEffect(v: Snapshot, j: Job, n: nat, image: seq<Byte>, moved: nat)
    requires Effect(v, j) && InWrite(v, j) && v.k.current == 0 && n <= v.chunkSectors * v.size
    requires v.next * v.size + n <= |v.image| && image == WriteAt(v.image, v.next * v.size, v.buffer[..n])
    ensures Effect(v.(image := image), j.(moved := moved, stored := j.stored + n))
  {
    WritePosition(v, j);
    var chunk := v.buffer[..v.chunkSectors * v.size];
    assert v.buffer[..n] == chunk[..n];
    StoreBehind(v, j, v.next * v.size, chunk, n, image, moved);
  }

  lemma ChunkKeepsEffect(v: Snapshot, j: Job, w: Snapshot)
    requires Inv(v, j) && v.phase.DataOutPhase? && v.k.current == 0 && ChunkWritten(v, w)
    ensures Effect(w, AfterWriting(v, j)) && (j.moved + v.chunkSectors) * v.size == j.stored + v.chunkSectors * v.size
  {
    StoreKeepsEffect(v, j, v.chunkSectors * v.size, w.image, j.moved + v.chunkSectors);
    ChunkInRange(v.size, j.plan.start, j.moved, v.chunkSectors, j.plan.count);
  }

  lemma WriteKeepsInv(v: Snapshot, j: Job, w: Snapshot)
    requires Inv(v, j) && v.phase.DataOutPhase? && v.k.current == 0 && ChunkWritten(v, w)
    requires j.moved + v.chunkSectors < j.plan.count
    ensures Inv(w, AfterWriting(v, j))
  {
    ReceivedChunkAdvances(v.k, v.size, v.chunkSectors, j.plan.count, j.moved);
    ChunkKeepsEffect(v, j, w);
    ChunkWithinRemaining(w.k, v.size, v.chunkSectors, j.plan.count, j.moved + v.chunkSectors);
  }

  lemma WriteEnds(v: Snapshot, j: Job, u: Snapshot, w: Snapshot)
    requires Inv(v, j) && v.phase.DataOutPhase? && v.k.current == 0 && ChunkWritten(v, u) && StatusEntered(u, w)
    requires j.moved + v.chunkSectors == j.plan.count
    ensures Inv(w, AfterWriting(v, j).(success := true))
  {
    ChunkKeepsEffect(v, j, u);
    EnteredStatusShows(u, w);
  }

  lemma FailedWriteKeepsInv(v: Snapshot, j: Job, u: Snapshot, w: Snapshot, n: nat)
    requires Inv(v, j) && v.phase.DataOutPhase? && v.k.current == 0
    requires n <= v.chunkSectors * v.size && v.next * v.size + n <= |v.image|
    requires u == v.(next := u.next, usable := u.usable, failures := u.failures,
                     image := WriteAt(v.image, v.next * v.size, v.buffer[..n]))
    requires u.failures > v.failures && Failed(u, w, WRITE_FAILED)
    ensures Inv(w, j.(stored := j.stored + n, success := false))
  {
    StoreKeepsEffect(v, j, n, u.image, j.moved);
    assert [CHECK_CONDITION] <= w.buffer;
  }

  predicate DropAfterWrite(v: Snapshot, u: Snapshot, w: Snapshot, n: nat) {
    && n <= v.chunkSectors * v.size && v.next * v.size + n <= |v.image| && n <= |v.buffer|
    && u == v.(next := u.next, usable := u.usable, failures := u.failures,
               image := WriteAt(v.image, v.next * v.size, v.buffer[..n]))
    && u.failures >= v.failures && Dropped(u, w)
  }

  lemma DroppedWriteKeepsInv(v: Snapshot, j: Job, u: Snapshot, w: Snapshot, n: nat)
    requires Inv(v, j) && v.phase.DataOutPhase? && v.k.current == 0 && DropAfterWrite(v, u, w, n)
    ensures Inv(w, j.(stored := j.stored + n, success := false))
  {
    StoreKeepsEffect(v, j, n, u.image, j.moved);
  }

  // The message byte behind the status.
  predicate MessageEntered(v: Snapshot, w: Snapshot)
    requires v.buffer != []
  {
    w == v.(phase := MsgInPhase, k := ONE, buffer := v.buffer[0 := CompletionMessage(v.linked, v.flag)],
            lines := LinesFor(v.lines, MsgInPhase))
  }

  lemma StatusEnds(v: Snapshot, j: Job, w: Snapshot)
    requires Inv(v, j) && v.phase.StatusPhase? && v.k.current == 0 && MessageEntered(v, w)
    ensures Inv(w, j) && Closer(v, w)
  {
    assert w.lines * TYPE_LINES == PhaseLines(MsgInPhase);
    assert forall l :: l !in TYPE_LINES ==> (l in w.lines <==> l in v.lines);
  }

  predicate Released(v: Snapshot, w: Snapshot) {
    w == v.(phase := BusFreePhase, k := w.k, status := GOOD, atn := false, lines := v.lines - BUS_FREE_LINES)
  }

  lemma CommandEnds(v: Snapshot, j: Job, w: Snapshot)
    requires Inv(v, j) && v.phase.MsgInPhase? && v.k.current == 0 && Released(v, w)
    ensures Inv(w, j.(progress := Finished))
  {
  }

  // A command whose bytes have not moved anything yet.
  function NewJob(v: Snapshot, busy: bool): Job {
    Job(Active, busy, Nothing(None), 0, v.toHost, v.fromHost, v.image, [], [], 0, false, v.linked, v.flag, v.faults,
        v.failures, v.faults, false)
  }

  predicate InCommand(v: Snapshot, j: Job) {
    && v.phase.CommandPhase? && !v.atn && Signals(v, j.busy) && |v.buffer| >= 512 && RST !in v.lines
    && j == NewJob(v.(failures := j.failures0, faults := j.faults0), j.busy).(faults1 := j.faults1)
    && v.failures >= j.failures0 && v.faults >= j.faults1 >= j.faults0
  }

  lemma NothingEnds(v: Snapshot, j: Job, w: Snapshot)
    requires InCommand(v, j) && v.status == GOOD && StatusEntered(v, w)
    ensures Inv(w, j.(success := true)) && Begun(j, j.(success := true), Nothing(None)) && w.phase.StatusPhase?
  {
    EnteredStatusShows(v, w);
    assert j.base + Tagged(DataInPhase, []) + [] == j.base;
  }

  lemma CommandFails(v: Snapshot, j: Job, w: Snapshot, s: Sense)
    requires InCommand(v, j) && Failed(v, w, s)
    ensures Inv(w, j.(plan := Nothing(Some(s))))
  {
    assert [CHECK_CONDITION] <= w.buffer;
    assert j.base + Tagged(DataInPhase, []) + [] == j.base;
  }

  lemma CommandDrops(v: Snapshot, j: Job, w: Snapshot, plan: Plan)
    requires InCommand(v, j) && Dropped(v, w) && !plan.Writing?
    ensures Inv(w, j.(plan := plan))
  {
  }

  // The command asks for a range that the disk has.
  predicate HasRange(v: Snapshot, start: nat, count: nat) {
    && 0 < count && 0 < v.size && start + count <= v.blocks && start * v.size + count * v.size <= |v.image|
    && v.status == GOOD && v.usable && 0 < v.chunkSectors && (v.chunkSectors == 1 || v.chunkSectors == count)
  }

  predicate DataInEntered(v: Snapshot, w: Snapshot, count: nat) {
    && w == v.(phase := DataInPhase, buffer := w.buffer, next := v.next + v.chunkSectors, failures := w.failures,
               k := Counters(0, count * v.size, v.chunkSectors * v.size, v.chunkSectors * v.size),
               lines := LinesFor(v.lines, DataInPhase))
    && w.failures >= v.failures && |w.buffer| >= 512 && v.chunkSectors * v.size <= |w.buffer|
    && IsSlice(w.buffer[..v.chunkSectors * v.size], v.image, v.size, v.next, v.chunkSectors)
  }

  lemma EnteredShows(lines: set<Line>, p: BusPhase)
    ensures LinesFor(lines, p) * TYPE_LINES == PhaseLines(p)
    ensures forall l :: l !in TYPE_LINES ==> (l in LinesFor(lines, p) <==> l in lines)
  {
  }

  lemma ReadBegins(v: Snapshot, j: Job, w: Snapshot, count: nat)
    requires InCommand(v, j) && HasRange(v, v.next, count) && DataInEntered(v, w, count)
    ensures Inv(w, j.(plan := Reading(v.next, count)))
  {
    EnteredShows(v.lines, DataInPhase);
    MultipleIsAtLeast(v.chunkSectors, v.size);
    EmptySlice(j.image0, v.size, v.next, count);
    assert j.base + Tagged(DataInPhase, []) + [] == j.base;
  }

  lemma ReadRefused(v: Snapshot, j: Job, u: Snapshot, w: Snapshot, start: nat, count: nat)
    requires InCommand(v, j) && HasRange(v, start, count)
    requires u == v.(k := u.k, buffer := u.buffer, next := u.next, usable := u.usable, failures := u.failures)
    requires u.failures > v.failures && |u.buffer| >= 512 && Failed(u, w, READ_FAILED)
    ensures Inv(w, j.(plan := Reading(start, count)))
  {
    assert [CHECK_CONDITION] <= w.buffer;
    EmptySlice(j.image0, v.size, start, count);
    assert j.base + Tagged(DataInPhase, []) + [] == j.base;
  }

  predicate DataOutEntered(v: Snapshot, w: Snapshot, count: nat) {
    && w == v.(phase := DataOutPhase, buffer := w.buffer, lines := LinesFor(v.lines, DataOutPhase),
               k := Counters(0, count * v.size, v.chunkSectors * v.size, v.chunkSectors * v.size))
    && |w.buffer| >= 512 && v.chunkSectors * v.size <= |w.buffer|
  }

  lemma NothingStored(image: seq<Byte>, offset: nat)
    requires offset <= |image|
    ensures image == WriteAt(image, offset, [])
  {
  }

  lemma WriteBegins(v: Snapshot, j: Job, w: Snapshot, count: nat)
    requires InCommand(v, j) && HasRange(v, v.next, count) && DataOutEntered(v, w, count) && j.host == v.fromHost
    ensures Inv(w, j.(plan := Writing(v.next, count)))
  {
    EnteredShows(v.lines, DataOutPhase);
    MultipleIsAtLeast(v.chunkSectors, v.size);
    NothingStored(v.image, v.next * v.size);
    assert j.received[..0] == [];
    NothingWrong([], j.host);
    assert j.base + Tagged(DataInPhase, []) + [] == j.base;
  }

  // The command goes on: what it is about stays.
  predicate SameCommand(j: Job, i: Job) {
    && j.busy == i.busy && j.plan == i.plan && j.base == i.base && j.host == i.host && j.image0 == i.image0
    && j.linked == i.linked && j.flag == i.flag && j.faults0 == i.faults0 && j.failures0 == i.failures0
    && j.faults1 == i.faults1 && j.syncs == i.syncs
    && (i.progress.Idle? ==> j.progress.Idle?)
  }

  function PhaseRank(p: BusPhase): nat {
    match p
    case DataInPhase => 3
    case DataOutPhase => 3
    case StatusPhase => 2
    case MsgInPhase => 1
    case _ => 0
  }

  // A step brings the end of the command closer.
  predicate Closer(v: Snapshot, w: Snapshot) {
    && w.faults >= v.faults
    && (|| PhaseRank(w.phase) < PhaseRank(v.phase)
        || (w.phase == v.phase && w.k.remaining < v.k.remaining)
        || (w.phase == v.phase && w.k.remaining == v.k.remaining && w.k.current < v.k.current))
  }

  lemma ErrorShows(v: Snapshot, u: Snapshot, w: Snapshot, s: Sense)
    requires Acquired(v, u) && RST !in u.lines && REQ !in v.lines && u.buffer != []
    requires StatusEntered(u.(status := CHECK_CONDITION, sense := s), w)
    ensures Failed(v, w, s)
  {
    SameTargetLines(v.lines, u.lines);
    EnteredShows(u.lines, StatusPhase);
  }

  lemma LeavingShows(v: Snapshot, u: Snapshot, w: Snapshot)
    requires Acquired(v, u) && |v.buffer| >= 512 && Released(u, w)
    ensures Left(v, w)
  {
  }

  // The outcome of TransferToHost, from the counters set for the next chunk.
  predicate TransferredToHost(v: Snapshot, w: Snapshot) {
    var u := v.(next := w.next, usable := w.usable, failures := w.failures);
    || (&& w == v.(k := v.k.(offset := 0, current := v.k.chunk), buffer := w.buffer, next := v.next + v.chunkSectors,
                   failures := w.failures)
        && w.failures >= v.failures && |w.buffer| == |v.buffer| && v.chunkSectors * v.size <= |w.buffer|
        && IsSlice(w.buffer[..v.chunkSectors * v.size], v.image, v.size, v.next, v.chunkSectors))
    || (w.failures > v.failures && (Failed(u, w, READ_FAILED) || Dropped(u, w)))
  }

  lemma LeftFrom(v: Snapshot, u: Snapshot, w: Snapshot)
    requires u == v.(next := u.next, usable := u.usable, failures := u.failures) && u.failures > v.failures
    requires Failed(u, w, READ_FAILED) || Dropped(u, w)
    ensures TransferredToHost(v, w)
  {
  }

  lemma SuccessIsLater(w: Snapshot, j: Job)
    requires Inv(w, j) && w.phase.DataInPhase?
    ensures Inv(w, j.(success := false))
  {
  }

  lemma TransferToHostKeepsInv(v: Snapshot, j: Job, u: Snapshot, w: Snapshot)
    requires Inv(v, j) && v.phase.DataInPhase? && v.k.current == 0 && v.k.chunk <= v.k.remaining
    requires j.moved < j.plan.count && RST !in v.lines
    requires u == v.(k := Advance(v.k, v.k.chunk)) && TransferredToHost(u, w)
    ensures Inv(w, j.(success := false)) && Closer(v, w) && (w.phase.StatusPhase? ==> w.status != GOOD)
  {
    if w.phase.DataInPhase? {
      ReadKeepsInv(v, j, w);
      SuccessIsLater(w, j);
    } else {
      var x := u.(next := w.next, usable := w.usable, failures := w.failures);
      if w.phase.StatusPhase? {
        FailedReadKeepsInv(v, j, x, w);
      }
    }
  }

  predicate Fetched(v: Snapshot, w: Snapshot)
    requires v.k.chunk <= v.k.remaining && |v.buffer| > 0
  {
    var u := v.(k := Advance(v.k, v.k.chunk));
    if u.k.remaining != 0 then TransferredToHost(u, w) else StatusEntered(u, w)
  }

  ghost function AfterFetch(j: Job, w: Snapshot): Job {
    j.(success := w.phase.StatusPhase? && w.status == GOOD)
  }

  lemma FetchKeepsInv(v: Snapshot, j: Job, w: Snapshot)
    requires Inv(v, j) && v.phase.DataInPhase? && v.k.current == 0 && RST !in v.lines && CanFetch(v) && Fetched(v, w)
    ensures Inv(w, AfterFetch(j, w)) && SameCommand(j, AfterFetch(j, w)) && Closer(v, w)
  {
    ReadMore(v, j);
    var u := v.(k := Advance(v.k, v.k.chunk));
    if u.k.remaining != 0 {
      TransferToHostKeepsInv(v, j, u, w);
    } else {
      ReadEnds(v, j, u.k, w);
    }
  }

  lemma SendFits(v: Snapshot, j: Job)
    requires Inv(v, j) && v.phase in {DataInPhase, StatusPhase, MsgInPhase} && v.k.current != 0
    ensures v.k.offset + v.k.current <= |v.buffer| && |v.buffer| >= 512 && REQ !in v.lines
  {
  }

  // A send that worked or did not
  lemma SendGoesOn(v: Snapshot, j: Job, w: Snapshot)
    requires Inv(v, j) && v.phase in {DataInPhase, StatusPhase, MsgInPhase} && v.k.current != 0
    requires if w.phase.BusFreePhase? then Dropped(v, w) else SentStep(v, w)
    ensures var i := if w.phase.BusFreePhase? then j else AfterSending(v, j);
            Inv(w, i) && SameCommand(j, i) && Closer(v, w)
  {
    if w.phase.BusFreePhase? {
      DropKeepsInv(v, j, w);
    } else {
      SendKeepsInv(v, j, w);
    }
    hide Inv;
  }

  // A receive that worked or did not
  lemma ReceiveGoesOn(v: Snapshot, j: Job, w: Snapshot, data: seq<Byte>)
    requires Inv(v, j) && v.phase in {DataOutPhase, MsgOutPhase} && v.k.current != 0
    requires if w.phase.BusFreePhase? then Dropped(v, w) else ReceivedStep(v, w, data)
    ensures var i := if w.phase.BusFreePhase? then j else AfterReceiving(v, j, data);
            Inv(w, i) && SameCommand(j, i) && (v.phase.DataOutPhase? ==> Closer(v, w))
  {
    if w.phase.BusFreePhase? {
      DropKeepsInv(v, j, w);
    } else {
      ReceiveKeepsInv(v, j, w, data);
    }
    hide Inv;
  }

  lemma FetchedFrom(v: Snapshot, u: Snapshot, w: Snapshot)
    requires u == v.(buffer := u.buffer, next := v.next + v.chunkSectors, failures := u.failures)
    requires u.failures >= v.failures && |u.buffer| == |v.buffer| && v.chunkSectors * v.size <= |u.buffer|
    requires IsSlice(u.buffer[..v.chunkSectors * v.size], v.image, v.size, v.next, v.chunkSectors)
    requires w == u.(k := v.k.(offset := 0, current := v.k.chunk))
    ensures TransferredToHost(v, w)
  {
  }

  // What storing the received chunk takes.
  predicate CanStore(v: Snapshot) {
    && 0 < v.k.chunk == v.chunkSectors * v.size <= v.k.remaining && v.usable && |v.buffer| >= 512
    && REQ !in v.lines && RST !in v.lines && v.chunkSectors * v.size <= |v.buffer|
    && v.next + v.chunkSectors <= v.blocks
  }

  // The chunk has not been stored, or only the first n bytes.
  predicate StoreFailed(v: Snapshot, w: Snapshot, n: nat) {
    && n <= v.chunkSectors * v.size && n <= |v.buffer| && v.next * v.size + n <= |v.image|
    && w.failures > v.failures
    && var u := v.(next := w.next, usable := w.usable, failures := w.failures,
                   image := WriteAt(v.image, v.next * v.size, v.buffer[..n]));
       Failed(u, w, WRITE_FAILED) || Dropped(u, w)
  }

  predicate Stored(v: Snapshot, w: Snapshot, n: nat)
    requires CanStore(v)
  {
    || StoreFailed(v, w, n)
    || (Advance(v.k, v.k.chunk).remaining != 0 && ChunkWritten(v, w))
    || (Advance(v.k, v.k.chunk).remaining == 0
        && ChunkFits(v) && w.failures >= v.failures && StatusEntered(WithChunk(v, w.failures), w))
  }

  ghost function AfterStore(v: Snapshot, j: Job, w: Snapshot, n: nat): Job {
    if w.phase.DataOutPhase? then AfterWriting(v, j)
    else if w.phase.StatusPhase? && w.status == GOOD then AfterWriting(v, j).(success := true)
    else j.(stored := j.stored + n, success := false)
  }

  lemma WriteFailureEnds(v: Snapshot, u: Snapshot, w: Snapshot)
    requires v.phase.DataOutPhase? && u.phase == v.phase && u.faults == v.faults
    requires Failed(u, w, WRITE_FAILED) || Dropped(u, w)
    ensures Closer(v, w) && (w.phase.StatusPhase? || w.phase.BusFreePhase?)
    ensures w.phase.StatusPhase? ==> w.status == CHECK_CONDITION && Failed(u, w, WRITE_FAILED)
    ensures w.phase.BusFreePhase? ==> Dropped(u, w)
  {
  }

  lemma StoreFailedKeepsInv(v: Snapshot, j: Job, w: Snapshot, n: nat)
    requires Inv(v, j) && v.phase.DataOutPhase? && v.k.current == 0 && StoreFailed(v, w, n)
    ensures Inv(w, j.(stored := j.stored + n, success := false)) && Closer(v, w)
    ensures w.phase.StatusPhase? ==> w.status == CHECK_CONDITION
    ensures w.phase.StatusPhase? || w.phase.BusFreePhase?
  {
    var u := v.(next := w.next, usable := w.usable, failures := w.failures,
                image := WriteAt(v.image, v.next * v.size, v.buffer[..n]));
    hide Heard;
    hide Inv;
    WriteFailureEnds(v, u, w);
    hide Failed;
    hide Dropped;
    hide Closer;
    if w.phase.StatusPhase? {
      FailedWriteKeepsInv(v, j, u, w, n);
    } else {
      DroppedWriteKeepsInv(v, j, u, w, n);
    }
  }

  lemma LastStoreKeepsInv(v: Snapshot, j: Job, u: Snapshot, w: Snapshot)
    requires Inv(v, j) && v.phase.DataOutPhase? && v.k.current == 0 && ChunkWritten(v, u) && |u.buffer| > 0
    requires StatusEntered(u, w) && j.moved + v.chunkSectors == j.plan.count
    ensures Inv(w, AfterWriting(v, j).(success := true)) && Closer(v, w) && w.status == GOOD && w.phase.StatusPhase?
  {
    WriteEnds(v, j, u, w);
    GoodStays(v, j, u, w);
  }

  lemma NextStoreKeepsInv(v: Snapshot, j: Job, w: Snapshot)
    requires Inv(v, j) && v.phase.DataOutPhase? && v.k.current == 0 && CanStore(v) && ChunkWritten(v, w)
    requires j.moved + v.chunkSectors != j.plan.count
    ensures Inv(w, AfterWriting(v, j)) && Closer(v, w) && w.phase.DataOutPhase?
  {
    WriteWithinCount(v, j);
    WriteKeepsInv(v, j, w);
  }

  lemma AfterStoreIsSame(v: Snapshot, j: Job, w: Snapshot, n: nat)
    ensures SameCommand(j, AfterStore(v, j, w, n))
  {
    MovingIsSame(j, j.moved + v.chunkSectors, j.stored + v.chunkSectors * v.size, j.success);
    MovingIsSame(j, j.moved + v.chunkSectors, j.stored + v.chunkSectors * v.size, true);
    MovingIsSame(j, j.moved, j.stored + n, false);
    hide SameCommand;
  }

  lemma MovingIsSame(j: Job, moved: nat, stored: nat, success: bool)
    ensures SameCommand(j, j.(moved := moved, stored := stored, success := success))
  {
  }

  lemma StoreKeepsInv(v: Snapshot, j: Job, w: Snapshot, n: nat)
    requires Inv(v, j) && v.phase.DataOutPhase? && v.k.current == 0 && RST !in v.lines && CanStore(v) && Stored(v, w, n)
    ensures Inv(w, AfterStore(v, j, w, n)) && SameCommand(j, AfterStore(v, j, w, n)) && Closer(v, w)
  {
    hide Inv;
    hide Closer;
    hide StoreFailed;
    hide ChunkWritten;
    hide StatusEntered;
    hide SameCommand;
    WriteMore(v, j);
    AfterStoreIsSame(v, j, w, n);
    if StoreFailed(v, w, n) {
      StoreFailedKeepsInv(v, j, w, n);
    } else if Advance(v.k, v.k.chunk).remaining != 0 {
      NextStoreKeepsInv(v, j, w);
    } else {
      LastStoreKeepsInv(v, j, WithChunk(v, w.failures), w);
    }
  }

  lemma GoodStays(v: Snapshot, j: Job, u: Snapshot, w: Snapshot)
    requires InWrite(v, j) && ChunkWritten(v, u) && |u.buffer| > 0 && StatusEntered(u, w)
    ensures w.status == GOOD && w.phase.StatusPhase?
  {
  }

  lemma WriteWithinCount(v: Snapshot, j: Job)
    requires InWrite(v, j)
    ensures j.moved + v.chunkSectors <= j.plan.count
  {
  }

  lemma ReceiveFits(v: Snapshot, j: Job)
    requires Inv(v, j) && v.phase in {DataOutPhase, MsgOutPhase} && v.k.current != 0
    ensures v.k.offset + v.k.current <= |v.buffer| && |v.buffer| >= 512 && REQ !in v.lines
  {
  }

  lemma StatusByteSent(v: Snapshot, j: Job)
    requires Inv(v, j) && v.phase.StatusPhase? && v.k.current == 0
    ensures v.k == ONE_DONE && |v.buffer| >= 512
  {
  }

  lemma MessageByteSent(v: Snapshot, j: Job)
    requires Inv(v, j) && v.phase.MsgInPhase? && v.k.current == 0
    ensures v.k == ONE_DONE
  {
  }

  lemma StoreFailedShows(v: Snapshot, u: Snapshot, w: Snapshot, n: nat)
    requires n <= v.chunkSectors * v.size && n <= |v.buffer| && v.next * v.size + n <= |v.image|
    requires u.failures > v.failures
    requires u == v.(next := u.next, usable := u.usable, failures := u.failures,
                     image := WriteAt(v.image, v.next * v.size, v.buffer[..n]))
    requires Failed(u, w, WRITE_FAILED) || Dropped(u, w)
    ensures StoreFailed(v, w, n)
  {
  }

  lemma ChunkWrittenShows(v: Snapshot, u: Snapshot, w: Snapshot)
    requires ChunkFits(v) && u.failures >= v.failures
    requires u == v.(next := v.next + v.chunkSectors, failures := u.failures,
                     image := WriteAt(v.image, v.next * v.size, v.buffer[..v.chunkSectors * v.size]))
    requires w == u.(k := NextChunk(v.k, v.k.chunk))
    ensures ChunkWritten(v, w)
  {
  }

  lemma InCommandShows(v: Snapshot, j: Job)
    requires InCommand(v, j)
    ensures |v.buffer| >= 512 && REQ !in v.lines && RST !in v.lines && v.phase.CommandPhase? && !j.syncs
  {
  }

  // A job whose plan is settled.
  predicate Begun(j: Job, i: Job, plan: Plan) {
    && i.plan == plan && i.progress.Active?
    && SameCommand(j.(plan := plan, syncs := i.syncs), i)
  }

  // A flush of the cache goes on the record of the job.
  lemma FlushIsOnRecord(v: Snapshot, j: Job, i: Job)
    requires Inv(v, i) && Begun(j, i, Nothing(None))
    ensures Inv(v, i.(syncs := true)) && Begun(j, i.(syncs := true), Nothing(None))
    ensures i.plan == Nothing(None) && i.failures0 == j.failures0
  {
  }

  lemma CommandFailures(v: Snapshot, j: Job)
    requires InCommand(v, j)
    ensures v.failures >= j.failures0
  {
  }

  // A command that is outside the model may end in any way.
  lemma NothingIsPromised(v: Snapshot, j: Job, i: Job, e: Option<Sense>)
    requires Inv(v, i) && Begun(j, i, Nothing(e))
    ensures Inv(v, i.(plan := Unmodelled)) && Begun(j, i.(plan := Unmodelled), Unmodelled)
  {
  }

  lemma CommandAnswered(v: Snapshot, j: Job, w: Snapshot, s: Sense)
    requires InCommand(v, j) && (Failed(v, w, s) || Dropped(v, w))
    ensures Inv(w, j.(plan := Nothing(Some(s)))) && Begun(j, j.(plan := Nothing(Some(s))), Nothing(Some(s)))
    ensures w.phase.StatusPhase? || w.phase.BusFreePhase?
  {
    if Failed(v, w, s) {
      CommandFails(v, j, w, s);
    } else {
      CommandDrops(v, j, w, Nothing(Some(s)));
    }
  }

  // Looking at the disk, setting its range, flushing it, and resetting counters and status do not concern the command.
  lemma CommandGoesOn(v: Snapshot, j: Job, w: Snapshot)
    requires InCommand(v, j) && w.failures >= v.failures
    requires w == v.(k := w.k, status := w.status, sense := w.sense,
                     usable := w.usable, failures := w.failures, next := w.next, chunkSectors := w.chunkSectors)
    ensures InCommand(w, j)
  {
  }

  lemma ControlTaken(v: Snapshot, j: Job, w: Snapshot)
    requires InCommand(v, j) && w == v.(linked := w.linked, flag := w.flag)
    ensures InCommand(w, j.(linked := w.linked, flag := w.flag))
  {
  }

  lemma CommandTaken(v: Snapshot, w: Snapshot, busy: bool)
    requires v.phase.CommandPhase? && !v.atn && Signals(v, busy) && |v.buffer| >= 512 && RST !in v.lines
    requires w == v.(fromHost := w.fromHost, faults := w.faults) && w.faults >= v.faults
    ensures InCommand(v, NewJob(v, busy))
    ensures InCommand(w, NewJob(v, busy).(host := w.fromHost, faults1 := w.faults))
  {
  }

  lemma CommandTimesOut(v: Snapshot, u: Snapshot, w: Snapshot, busy: bool)
    requires InCommand(v, NewJob(v, busy)) && u.faults > v.faults && Left(u, w)
    requires u.failures == v.failures && u.image == v.image && u.size == v.size
    ensures Inv(w, NewJob(v, busy))
  {
    CommandDrops(v, NewJob(v, busy), w, Nothing(None));
  }

  lemma PartOfMultiple(c: nat, count: nat, b: nat)
    requires (c == 1 || c == count) && 0 < count && 0 < b
    ensures 0 < c * b <= count * b
  {
    MultipleIsAtLeast(c, b);
    MultipleIsAtLeast(count, b);
  }

  function WithRange(v: Snapshot, start: nat, count: nat, c: nat): Snapshot {
    v.(k := TransferSize(v.k, count * v.size, c * v.size), next := start, chunkSectors := c)
  }

  // The range and the counters of a READ are set up, and its first chunk is in the buffer unless that failed.
  predicate ReadSetUp(v: Snapshot, w: Snapshot, start: nat, count: nat, e: Option<Sense>) {
    var c := w.chunkSectors;
    && (c == 1 || c == count) && w.failures >= v.failures && |w.buffer| >= 512 && c * v.size <= |w.buffer|
    && start * v.size + count * v.size <= |v.image| && start + count <= v.blocks && 0 < v.size
      && 0 < c * v.size <= count * v.size
    && v.usable
    && w == v.(k := w.k, buffer := w.buffer, next := w.next, usable := w.usable, failures := w.failures,
               chunkSectors := c)
    && w.k.remaining == count * v.size && w.k.chunk == c * v.size
    && (e.Some? ==> w.failures > v.failures && e == Some(READ_FAILED))
    && (e.None? ==> w.usable && w.next == start + c && IsSlice(w.buffer[..c * v.size], v.image, v.size, start, c))
  }

  // The range and the counters of a READ are set up, and the buffer has room for all of its data.
  predicate ReadReady(v: Snapshot, m: Snapshot, start: nat, count: nat) {
    var c := m.chunkSectors;
    && (c == 1 || c == count) && 0 < count && start + count <= v.blocks && v.usable && |v.buffer| >= 512
    && 0 < v.size && start * v.size + count * v.size <= |v.image|
    && m == WithRange(v, start, count, c).(k := m.k, buffer := m.buffer)
    && m.k.remaining == count * v.size && 0 < m.k.chunk == c * v.size <= count * v.size
    && |m.buffer| >= |v.buffer| && count * v.size <= |m.buffer|
  }

  lemma ReadyShows(v: Snapshot, m: Snapshot, start: nat, count: nat)
    requires ReadReady(v, m, start, count)
    ensures m.next == start && m.next + m.chunkSectors <= m.blocks && m.usable
    ensures m.chunkSectors * m.size <= count * m.size <= |m.buffer|
  {
  }

  lemma FirstChunkRead(v: Snapshot, m: Snapshot, w: Snapshot, start: nat, count: nat, e: Option<Sense>)
    requires ReadReady(v, m, start, count)
    requires if e.None? then
               && w == m.(buffer := w.buffer, next := m.next + m.chunkSectors, failures := w.failures)
               && w.failures >= m.failures && |w.buffer| == |m.buffer|
               && IsSlice(w.buffer[..m.chunkSectors * m.size], m.image, m.size, m.next, m.chunkSectors)
             else
               && w == m.(next := w.next, usable := w.usable, failures := w.failures)
               && w.failures > m.failures && e == Some(READ_FAILED)
    ensures ReadSetUp(v, w, start, count, e)
  {
    hide IsSlice;
  }

  lemma ReadSetUpShows(v: Snapshot, w: Snapshot, start: nat, count: nat, e: Option<Sense>)
    requires ReadSetUp(v, w, start, count, e)
    ensures |w.buffer| >= 512 && w.chunkSectors * w.size <= |w.buffer| && w.phase == v.phase && w.lines == v.lines
    ensures e.Some? ==> e == Some(READ_FAILED)
  {
  }

  lemma ReadSetUpFails(v: Snapshot, j: Job, u: Snapshot, w: Snapshot, start: nat, count: nat, e: Option<Sense>)
    requires InCommand(v, j) && v.status == GOOD && j.plan == Nothing(None) && ReadSetUp(v, u, start, count, e)
    requires e.Some? && 0 < count && (Failed(u, w, READ_FAILED) || Dropped(u, w))
    ensures Inv(w, j.(plan := Reading(start, count)))
    ensures Begun(j, j.(plan := Reading(start, count)), Reading(start, count))
  {
    var x := v.(chunkSectors := u.chunkSectors, failures := u.failures);
    CommandGoesOn(v, j, x);
    if Failed(u, w, READ_FAILED) {
      x := v.(chunkSectors := u.chunkSectors);
      ReadRefused(x, j, u, w, start, count);
    } else {
      CommandDrops(x, j, w, Reading(start, count));
    }
  }

  lemma ReadSetUpBegins(v: Snapshot, j: Job, u: Snapshot, w: Snapshot, start: nat, count: nat)
    requires InCommand(v, j) && v.status == GOOD && j.plan == Nothing(None) && ReadSetUp(v, u, start, count, None)
    requires 0 < count
    requires w == u.(phase := DataInPhase, lines := LinesFor(u.lines, DataInPhase), buffer := u.buffer,
                     k := u.k.(offset := 0, current := u.chunkSectors * u.size))
    ensures Inv(w, j.(plan := Reading(start, count)))
    ensures Begun(j, j.(plan := Reading(start, count)), Reading(start, count))
  {
    var x := v.(chunkSectors := u.chunkSectors, next := start);
    CommandGoesOn(v, j, x);
    ReadBegins(x, j, w, count);
  }

  lemma WriteSetUpBegins(v: Snapshot, j: Job, u: Snapshot, w: Snapshot, start: nat, count: nat)
    requires InCommand(v, j) && v.status == GOOD && v.usable && j.plan == Nothing(None) && j.host == v.fromHost
    requires 0 < count && u == WithRange(v, start, count, u.chunkSectors)
    requires (u.chunkSectors == 1 || u.chunkSectors == count) && start + count <= v.blocks && 0 < v.size
    requires start * v.size + count * v.size <= |v.image| && u.chunkSectors * v.size <= |w.buffer|
    requires 0 < u.k.chunk == u.chunkSectors * v.size
    requires |w.buffer| >= |v.buffer|
    requires w == u.(phase := DataOutPhase, lines := LinesFor(u.lines, DataOutPhase), buffer := w.buffer,
                     k := u.k.(offset := 0, current := u.chunkSectors * u.size))
    ensures Inv(w, j.(plan := Writing(start, count)))
    ensures Begun(j, j.(plan := Writing(start, count)), Writing(start, count))
  {
    var x := v.(chunkSectors := u.chunkSectors, next := start);
    CommandGoesOn(v, j, x);
    WriteBegins(x, j, w, count);
  }

  // Where a command started from stays.
  predicate SameStart(j: Job, i: Job) {
    && i.progress.Active? && j.busy == i.busy && j.base == i.base && j.image0 == i.image0
    && j.faults0 == i.faults0 && j.failures0 == i.failures0
  }

  lemma BufferFits(v: Snapshot, j: Job)
    requires Inv(v, j)
    ensures |v.buffer| >= 512 && REQ !in v.lines
  {
  }

  lemma MsgOutBegins(v: Snapshot, j: Job, w: Snapshot)
    requires Inv(v, j) && v.phase.SelectionPhase? && SEL !in v.lines
    requires w == v.(phase := MsgOutPhase, lines := LinesFor(v.lines, MsgOutPhase), k := ONE, atn := true)
    ensures Inv(w, j)
  {
    EnteredShows(v.lines, MsgOutPhase);
  }

  lemma MessageTaken(v: Snapshot, j: Job)
    requires Inv(v, j) && v.phase.MsgOutPhase? && v.k.current == 0
    ensures v.k == ONE_DONE && |v.buffer| >= 512 && REQ !in v.lines
  {
  }

  lemma MessageGoesOn(v: Snapshot, j: Job, w: Snapshot)
    requires Inv(v, j) && v.phase.MsgOutPhase? && w == v.(k := ONE)
    ensures Inv(w, j)
  {
  }

  predicate IsLeaving(message: Byte) {
    message == ABORT || message == BUS_DEVICE_RESET
  }

  predicate Leaves(messages: seq<Byte>) {
    exists m :: m in messages && IsLeaving(m)
  }

  lemma SameBusyLines(a: set<Line>, b: set<Line>)
    ensures a - TYPE_LINES == b - TYPE_LINES ==>
              (BSY in a <==> BSY in b) && (SEL in a <==> SEL in b) && (RST in a <==> RST in b)
  {
    if a - TYPE_LINES == b - TYPE_LINES {
      assert RST in a - TYPE_LINES <==> RST in b - TYPE_LINES;
      assert BSY in a - TYPE_LINES <==> BSY in b - TYPE_LINES;
      assert SEL in a - TYPE_LINES <==> SEL in b - TYPE_LINES;
    }
  }

  // Something has been sent, and the first byte of it is MESSAGE REJECT.
  predicate BeginsWithReject(before: seq<Sent>, after: seq<Sent>) {
    |before| < |after| && before <= after && after[|before|].value == 0x07
  }

  // How often a sequence of message bytes is rejected: once for each byte 0x01 in front of the first ABORT or BUS
  // DEVICE RESET, whether this byte begins an extended message or is a part of one.
  function Rejections(messages: seq<Byte>): nat {
    if messages == [] || IsLeaving(messages[0]) then 0
    else (if messages[0] == 0x01 then 1 else 0) + Rejections(messages[1..])
  }

  // IDENTIFY, and a SYNCHRONOUS DATA TRANSFER REQUEST, whose code is 0x01 as well
  const TRANSFER_REQUEST: seq<Byte> := [0x80, 0x01, 0x03, 0x01, 0x19, 0x0f]

  // IDENTIFY, and a WIDE DATA TRANSFER REQUEST for 8 bits
  const EIGHT_BITS: seq<Byte> := [0x80, 0x01, 0x02, 0x03, 0x00]

  lemma RejectionsOfMessages()
    ensures Rejections(TRANSFER_REQUEST) == 2 && Rejections(EIGHT_BITS) == 1
  {
    var t, d := TRANSFER_REQUEST, EIGHT_BITS;
    assert t[1..][1..] == t[2..] && t[2..][1..] == t[3..] && t[3..][1..] == t[4..] && t[4..][1..] == t[5..];
    assert d[1..][1..] == d[2..] && d[2..][1..] == d[3..] && d[3..][1..] == d[4..];
  }

  // The LUN that a sequence of messages identifies: the last IDENTIFY message counts, and an ABORT or BUS DEVICE
  // RESET message forgets it.
  function LunOfMessages(messages: seq<Byte>, lun: int): int {
    if messages == [] then lun
    else if messages[0] == ABORT || messages[0] == BUS_DEVICE_RESET then -1
    else LunOfMessages(messages[1..], if messages[0] >= 0x80 then messages[0] % 32 else lun)
  }

  lemma MessagePhaseShows(v: Snapshot, j: Job)
    requires Inv(v, j) && v.phase.MsgOutPhase?
    ensures |v.buffer| >= 512 && REQ !in v.lines && j.progress.Idle?
    ensures j.busy && BSY in v.lines && SEL !in v.lines
  {
  }

  // Whether a sequence of messages resets the device: a BUS DEVICE RESET does, if the LUN at this point is 0.
  predicate ResetsDevice(messages: seq<Byte>, lun: int, cdb: seq<Byte>)
    requires |cdb| == 16
  {
    messages != [] && messages[0] != ABORT
    && if messages[0] == BUS_DEVICE_RESET then LunOf(lun, cdb) == 0
       else ResetsDevice(messages[1..], if messages[0] >= 0x80 then messages[0] % 32 else lun, cdb)
  }

  // The situation behind the messages
  function Heeded(x: Situation, messages: seq<Byte>, cdb: seq<Byte>): Situation
    requires |cdb| == 16
  {
    x.(identifiedLun := LunOfMessages(messages, x.identifiedLun),
       ready := if ResetsDevice(messages, x.identifiedLun, cdb) then Some(Sense(UnitAttention, PowerOnOrReset))
                else x.ready)
  }

  predicate Stays(messages: seq<Byte>) {
    forall m :: m in messages ==> m !in {0x06, 0x0c}
  }

  predicate NoIdentify(messages: seq<Byte>) {
    forall m :: m in messages ==> m < 0x80
  }

  lemma StaysOrLeaves(messages: seq<Byte>)
    ensures Stays(messages) <==> !Leaves(messages)
  {
    assert forall m: Byte :: IsLeaving(m) <==> m in {0x06, 0x0c};
  }

  // The lower five bits of the last IDENTIFY message are the LUN.
  lemma {:induction false} IdentifyIsHeard(before: seq<Byte>, m: Byte, after: seq<Byte>, lun: int)
    requires Stays(before) && Stays(after) && m >= 0x80 && NoIdentify(after)
    ensures LunOfMessages(before + [m] + after, lun) == m % 32
    decreases |before|
  {
    var all := before + [m] + after;
    if before == [] {
      assert all[1..] == after && all[0] == m;
      NothingIdentified(after, m % 32);
    } else {
      assert all[1..] == before[1..] + [m] + after && all[0] == before[0] && before[0] in before;
      assert forall b :: b in before[1..] ==> b in before;
      IdentifyIsHeard(before[1..], m, after, if before[0] >= 0x80 then before[0] % 32 else lun);
    }
  }

  lemma {:induction false} NothingIdentified(messages: seq<Byte>, lun: int)
    requires Stays(messages) && NoIdentify(messages)
    ensures LunOfMessages(messages, lun) == lun
    decreases |messages|
  {
    if messages != [] {
      assert messages[0] in messages && forall b :: b in messages[1..] ==> b in messages;
      NothingIdentified(messages[1..], lun);
    }
  }

  // ABORT and BUS DEVICE RESET forget it, whatever follows.
  lemma {:induction false} LeavingForgets(before: seq<Byte>, m: Byte, after: seq<Byte>, lun: int)
    requires m in {0x06, 0x0c}
    ensures LunOfMessages(before + [m] + after, lun) == -1
    decreases |before|
  {
    var all := before + [m] + after;
    if before != [] {
      assert all[1..] == before[1..] + [m] + after && all[0] == before[0];
      LeavingForgets(before[1..], m, after, if before[0] >= 0x80 then before[0] % 32 else lun);
    }
  }

  // Only the first ABORT or BUS DEVICE RESET counts, and only the latter resets the device.
  lemma {:induction false} FirstLeavingCounts(before: seq<Byte>, m: Byte, after: seq<Byte>, lun: int, cdb: seq<Byte>)
    requires Stays(before) && m in {0x06, 0x0c} && |cdb| == 16
    ensures ResetsDevice(before + [m] + after, lun, cdb) <==> m == 0x0c && LunOf(LunOfMessages(before, lun), cdb) == 0
    decreases |before|
  {
    var all := before + [m] + after;
    if before != [] {
      assert all[1..] == before[1..] + [m] + after && all[0] == before[0] && before[0] in before;
      assert forall b :: b in before[1..] ==> b in before;
      FirstLeavingCounts(before[1..], m, after, if before[0] >= 0x80 then before[0] % 32 else lun, cdb);
    }
  }

  lemma {:induction false} NothingLeaves(messages: seq<Byte>, lun: int, cdb: seq<Byte>)
    requires Stays(messages) && |cdb| == 16
    ensures !ResetsDevice(messages, lun, cdb)
    decreases |messages|
  {
    if messages != [] {
      assert messages[0] in messages && forall b :: b in messages[1..] ==> b in messages;
      NothingLeaves(messages[1..], if messages[0] >= 0x80 then messages[0] % 32 else lun, cdb);
    }
  }

  // Each byte 0x01 is rejected, and nothing behind the first ABORT or BUS DEVICE RESET.
  lemma {:induction false} RejectionsAdd(a: seq<Byte>, b: seq<Byte>)
    requires Stays(a)
    ensures Rejections(a + b) == Rejections(a) + Rejections(b)
    decreases |a|
  {
    if a == [] {
      assert a + b == b;
    } else {
      assert (a + b)[1..] == a[1..] + b && a[0] in a && forall m :: m in a[1..] ==> m in a;
      RejectionsAdd(a[1..], b);
    }
  }

  lemma RejectionOfByte(m: Byte, after: seq<Byte>)
    ensures Rejections([m]) == if m == 0x01 then 1 else 0
    ensures m in {0x06, 0x0c} ==> Rejections([m] + after) == 0
  {
    assert [m][1..] == [];
  }

  // A command is between its first data or status phase and the end of its message.
  predicate Within(v: Snapshot) {
    PhaseRank(v.phase) > 0 && (v.linked ==> !AtMessage(v))
  }

  // The message of a command has been sent.
  predicate AtMessage(v: Snapshot) {
    v.phase.MsgInPhase? && v.k.current == 0
  }

  // A step of a command: the same command, and closer to its end.
  predicate Onward(v: Snapshot, j: Job, w: Snapshot, i: Job) {
    SameCommand(j, i) && Closer(v, w)
  }

  lemma MessageInShows(v: Snapshot, j: Job)
    requires Inv(v, j) && v.phase.MsgInPhase?
    ensures |v.buffer| >= 512 && REQ !in v.lines && !v.atn && (v.k.current == 0 ==> v.k.chunk <= v.k.remaining)
    ensures j.busy ==> BSY in v.lines && SEL !in v.lines
  {
  }

  predicate IsReset(v: Snapshot, w: Snapshot) {
    && (v.usable ==> w.usable)
    && w == v.(phase := BusFreePhase, k := Counters(0, 0, 0, 0), status := GOOD, linked := false, flag := false,
               atn := false, lines := {}, usable := w.usable)
  }

  lemma ResetKeepsInv(v: Snapshot, j: Job, w: Snapshot)
    requires Inv(v, j) && RST in v.lines && IsReset(v, w)
    ensures Inv(w, j)
    ensures PhaseRank(v.phase) > 0 ==> Onward(v, j, w, j)
  {
  }

  // In the data, status and message phases of a command.
  lemma CommandPhases(v: Snapshot, j: Job)
    requires Inv(v, j)
    ensures v.phase in {BusFreePhase, SelectionPhase, MsgOutPhase, DataInPhase, DataOutPhase, StatusPhase, MsgInPhase}
    ensures PhaseRank(v.phase) > 0 ==> j.progress.Active? && v.linked == j.linked
    ensures |v.buffer| >= 512 && REQ !in v.lines && (v.atn ==> v.phase.MsgOutPhase?)
    ensures v.phase.BusFreePhase? ==> Done(v, j)
    ensures v.faults >= j.faults0
    ensures v.phase.SelectionPhase? || v.phase.MsgOutPhase? ==> j.progress.Idle?
  {
  }

  lemma OnwardFromAcquired(v: Snapshot, u: Snapshot, j: Job, w: Snapshot, i: Job)
    requires Acquired(v, u) && Onward(u, j, w, i)
    ensures Onward(v, j, w, i)
  {
  }

  lemma CommandFaults(v: Snapshot, j: Job)
    requires Inv(v, j)
    ensures v.faults >= j.faults1 >= j.faults0
  {
  }

  // Outside SELECTION the phase of the controller is the phase the bus shows, as long as the command is on a busy bus.
  lemma LinesShowPhase(v: Snapshot, j: Job)
    requires Inv(v, j) && !v.phase.SelectionPhase? && (v.phase.BusFreePhase? ==> SEL !in v.lines)
    requires v.phase.BusFreePhase? || j.busy
    ensures PhaseOfLines(v.lines) == v.phase
  {
    if IsTransferPhase(v.phase) {
      PhaseLinesShowPhase(v.lines, v.phase);
    }
  }

  // In the data phases a chunk never exceeds what remains or what the buffer holds.
  lemma ChunkNeverExceedsRemaining(v: Snapshot, j: Job)
    requires Inv(v, j) && v.phase in {DataInPhase, DataOutPhase}
    ensures 0 < v.k.chunk <= v.k.remaining && v.k.offset + v.k.current <= v.k.chunk <= |v.buffer|
  {
    var count, moved := j.plan.count, j.moved;
    if v.k.current != 0 {
      ChunkWithinRemaining(v.k, v.size, v.chunkSectors, count, moved);
    } else if v.phase.DataInPhase? {
      SentChunkAdvances(v.k, v.size, v.chunkSectors, count, moved);
      MultipleIsAtLeast(v.chunkSectors, v.size);
    } else {
      ReceivedChunkAdvances(v.k, v.size, v.chunkSectors, count, moved);
    }
  }
}
