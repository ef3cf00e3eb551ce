// What a command does from the COMMAND phase on, for the initiator and for the image.
module CommandResults {
  import opened Basics
  import opened SignalWord
  import opened HandshakeOutcomes
  import opened TargetBuses
  import opened FlatImage
  import opened Disks
  import opened Requests
  import opened Transfers

  // The command has begun in this state.
  predicate StartedFrom(v: Snapshot, j: Job) {
    j.busy && j.base == v.toHost && j.image0 == v.image && j.faults0 == v.faults && j.failures0 == v.failures
  }

  // The state is one that the command has reached from its beginning.
  predicate Reached(v: Snapshot, w: Snapshot, j: Job) {
    Inv(w, j) && StartedFrom(v, j) && !j.progress.Idle? && w.size == v.size
  }

  // The bytes that end a command: one of status and one message.
  function Ending(status: Byte, linked: bool, flag: bool): seq<Sent> {
    [Sent(StatusPhase, StatusByte(status, linked)), Sent(MsgInPhase, CompletionMessage(linked, flag))]
  }

  // The bytes themselves: GOOD or CHECK CONDITION and COMMAND COMPLETE, and what they are if another command is linked.
  // The flag bit has no meaning without the link bit.
  lemma EndingBytes(flag: bool)
    ensures Ending(GOOD, false, flag) == [Sent(StatusPhase, 0x00), Sent(MsgInPhase, 0x00)]
    ensures Ending(CHECK_CONDITION, false, flag) == [Sent(StatusPhase, 0x02), Sent(MsgInPhase, 0x00)]
    ensures Ending(GOOD, true, flag) == [Sent(StatusPhase, 0x10), Sent(MsgInPhase, if flag then 0x0b else 0x0a)]
    ensures Ending(CHECK_CONDITION, true, flag) ==
            [Sent(StatusPhase, 0x02), Sent(MsgInPhase, if flag then 0x0b else 0x0a)]
  {
  }

  // ---- What holds whatever fails in the file, as long as the bus works ----

  // The data that have been sent, and what the status says about them.
  ghost predicate DataTold(v: Snapshot, w: Snapshot, plan: Plan, data: seq<Byte>, success: bool) {
    match plan
    case Nothing(error) =>
      && data == [] && (success <==> error.None?) && (error.Some? ==> w.sense == error.value)
    case Reading(start, count) =>
      && (exists n: nat :: n <= count && IsSlice(data, v.image, v.size, start, n) && (success ==> n == count))
      && (!success ==> w.sense == READ_FAILED)
    case Writing(start, count) =>
      data == [] && (!success ==> w.sense == WRITE_FAILED)
    case Unmodelled => true
  }

  // The initiator has got the data, then exactly one status byte, then exactly one message.
  ghost predicate Told(v: Snapshot, w: Snapshot, j: Job) {
    if j.plan.Unmodelled? then true
    else
      && w.toHost == v.toHost + Tagged(DataInPhase, j.data)
                     + Ending(if j.success then GOOD else CHECK_CONDITION, j.linked, j.flag)
      && DataTold(v, w, j.plan, j.data, j.success)
  }

  lemma OutcomeIsTold(v: Snapshot, w: Snapshot, j: Job)
    requires Reached(v, w, j) && Outcome(w, j)
    requires Logged(w, j, [Sent(StatusPhase, Code(j)), Sent(MsgInPhase, LastByte(j))])
    ensures Told(v, w, j)
  {
    if j.plan.Reading? {
      assert IsSlice(j.data, v.image, v.size, j.plan.start, j.moved);
    }
  }

  // Behind its message a command has told the initiator everything, and it ends without a message only after a fault.
  lemma CommandTells(v: Snapshot, w: Snapshot, j: Job)
    requires Reached(v, w, j) && (AtMessage(w) || w.phase.BusFreePhase?)
    ensures AtMessage(w) || j.progress.Finished? || w.faults > v.faults
    ensures AtMessage(w) || j.progress.Finished? ==> Told(v, w, j)
  {
    if AtMessage(w) || j.progress.Finished? {
      OutcomeIsTold(v, w, j);
    }
  }

  // A command that has failed ends with CHECK CONDITION and the message for its link and flag bits: LINKED COMMAND
  // COMPLETE is sent behind CHECK CONDITION as well.
  predicate EndsWithFailure(toHost: seq<Sent>, linked: bool, flag: bool) {
    && |toHost| >= 2 && toHost[|toHost| - 2] == Sent(StatusPhase, CHECK_CONDITION)
    && var last := toHost[|toHost| - 1];
       && last.phase.MsgInPhase?
       && (last.value == COMMAND_COMPLETE <==> !linked)
       && (last.value in {LINKED_COMMAND_COMPLETE, LINKED_COMMAND_COMPLETE_WITH_FLAG} <==> linked)
       && (last.value == LINKED_COMMAND_COMPLETE_WITH_FLAG <==> linked && flag)
  }

  lemma FailureEnds(v: Snapshot, w: Snapshot, j: Job)
    requires Told(v, w, j) && !j.success && !j.plan.Unmodelled?
    ensures EndsWithFailure(w.toHost, j.linked, j.flag)
  {
  }

  // ---- What a command does when nothing fails ----

  predicate ReadDelivered(v: Snapshot, w: Snapshot, start: nat, count: nat, linked: bool, flag: bool) {
    && w.image == v.image && start * v.size + count * v.size <= |v.image|
    && w.toHost == v.toHost + Tagged(DataInPhase, v.image[start * v.size..start * v.size + count * v.size])
                   + Ending(GOOD, linked, flag)
  }

  // The sectors hold the next bytes of the host, which have been taken from it, and nothing else has changed.
  predicate WriteStored(v: Snapshot, w: Snapshot, start: nat, count: nat, host: seq<Byte>, linked: bool, flag: bool) {
    && count * v.size <= |host| && start * v.size + count * v.size <= |v.image|
    && w.image == WriteAt(v.image, start * v.size, host[..count * v.size])
    && w.fromHost == host[count * v.size..] && w.usable
    && w.toHost == v.toHost + Ending(GOOD, linked, flag)
  }

  predicate StatusReported(v: Snapshot, w: Snapshot, error: Option<Sense>, linked: bool, flag: bool) {
    && w.image == v.image && (error.Some? ==> w.sense == error.value)
    && w.toHost == v.toHost + Ending(if error.Some? then CHECK_CONDITION else GOOD, linked, flag)
  }

  predicate Answered(v: Snapshot, w: Snapshot, j: Job) {
    match j.plan
    case Nothing(error) => StatusReported(v, w, error, j.linked, j.flag)
    case Reading(start, count) => ReadDelivered(v, w, start, count, j.linked, j.flag)
    case Writing(start, count) => WriteStored(v, w, start, count, j.host, j.linked, j.flag)
    case Unmodelled => true
  }

  // The flag bit has no meaning without the link bit.
  lemma AnsweredWrite(v: Snapshot, w: Snapshot, j: Job)
    requires Answered(v, w, j) && j.plan.Writing? && !j.linked
    ensures WriteStored(v, w, j.plan.start, j.plan.count, j.host, false, false)
    ensures j.plan.count * v.size <= |j.host| && w.fromHost == j.host[j.plan.count * v.size..] && w.usable
  {
  }

  lemma AnsweredRead(v: Snapshot, w: Snapshot, j: Job)
    requires Answered(v, w, j) && j.plan.Reading? && !j.linked
    ensures ReadDelivered(v, w, j.plan.start, j.plan.count, false, false)
  {
  }

  lemma AnsweredFrom(v: Snapshot, u: Snapshot, w: Snapshot, j: Job)
    requires u == v.(lines := u.lines, atn := u.atn) && Answered(u, w, j)
    ensures Answered(v, w, j)
  {
  }

  // The bytes are in their place, and nothing else is different.
  predicate WrittenTo(after: seq<Byte>, before: seq<Byte>, offset: nat, data: seq<Byte>) {
    offset + |data| <= |before| && after == before[..offset] + data + before[offset + |data|..]
  }

  // What the host has left to put out behind the data of a WRITE
  function BehindData(j: Job, size: nat): seq<Byte>
    requires j.plan.Writing?
  {
    var n := j.plan.count * size;
    if n <= |j.host| then j.host[n..] else []
  }

  // A command behind a WRITE: a READ of the same range sends what was written, and a command that moves nothing leaves
  // it in its place.
  predicate BehindWrite(v: Snapshot, w: Snapshot, j: Job, i: Job)
    requires j.plan.Writing?
  {
    var start, n := j.plan.start, j.plan.count * v.size;
    && n <= |j.host|
    && (!i.linked && i.plan == Reading(start, j.plan.count) ==>
          w.toHost == v.toHost + Ending(GOOD, false, false) + Tagged(DataInPhase, j.host[..n])
                      + Ending(GOOD, false, false))
    && (i.plan.Nothing? ==> WrittenTo(w.image, v.image, start * v.size, j.host[..n]))
  }

  lemma AnsweredBehindWrite(a: Snapshot, b: Snapshot, c: Snapshot, j: Job, i: Job)
    requires Answered(a, b, j) && j.plan.Writing? && !j.linked && Answered(b, c, i) && b.size == a.size
    ensures BehindWrite(a, c, j, i) && b.usable && b.fromHost == BehindData(j, a.size)
  {
    hide Answered;
    hide ReadDelivered;
    AnsweredWrite(a, b, j);
    if i.plan.Nothing? {
      NothingBehindWrite(a, b, c, j, i);
    }
    if !i.linked && i.plan == Reading(j.plan.start, j.plan.count) {
      AnsweredRead(b, c, i);
      ReadBehindWrite(a, b, b, c, j.plan.start, j.plan.count, j.host);
    }
  }

  lemma NothingBehindWrite(a: Snapshot, b: Snapshot, c: Snapshot, j: Job, i: Job)
    requires j.plan.Writing? && WriteStored(a, b, j.plan.start, j.plan.count, j.host, false, false)
    requires Answered(b, c, i) && i.plan.Nothing?
    ensures j.plan.count * a.size <= |j.host|
    ensures WrittenTo(c.image, a.image, j.plan.start * a.size, j.host[..j.plan.count * a.size])
  {
  }

  lemma NoDataTagged(base: seq<Sent>, more: seq<Sent>)
    ensures base + Tagged(DataInPhase, []) + more == base + more
  {
    assert base + Tagged(DataInPhase, []) == base;
  }

  lemma ReadDelivers(v: Snapshot, w: Snapshot, j: Job)
    requires Reached(v, w, j) && (AtMessage(w) || w.phase.BusFreePhase?) && j.plan.Reading?
    requires w.faults == v.faults && w.failures == v.failures
    ensures ReadDelivered(v, w, j.plan.start, j.plan.count, j.linked, j.flag)
  {
  }

  lemma WriteStores(v: Snapshot, w: Snapshot, j: Job)
    requires Reached(v, w, j) && (AtMessage(w) || w.phase.BusFreePhase?) && j.plan.Writing?
    requires w.faults == v.faults && w.failures == v.failures
    ensures WriteStored(v, w, j.plan.start, j.plan.count, j.host, j.linked, j.flag)
  {
    var n := j.plan.count * v.size;
    NoDataTagged(j.base, [Sent(StatusPhase, Code(j)), Sent(MsgInPhase, LastByte(j))]);
    HeardWithoutFaults(j.received, j.host);
    assert j.received[..n] == j.host[..n];
  }

  lemma NothingReports(v: Snapshot, w: Snapshot, j: Job)
    requires Reached(v, w, j) && (AtMessage(w) || w.phase.BusFreePhase?) && j.plan.Nothing? && w.faults == v.faults
    ensures StatusReported(v, w, j.plan.error, j.linked, j.flag)
  {
    NoDataTagged(j.base, [Sent(StatusPhase, Code(j)), Sent(MsgInPhase, LastByte(j))]);
  }

  lemma CommandAnswers(v: Snapshot, w: Snapshot, j: Job)
    requires Reached(v, w, j) && (AtMessage(w) || w.phase.BusFreePhase?) && w.faults == v.faults
    requires w.failures == v.failures
    ensures Answered(v, w, j)
  {
    hide Reached;
    hide ReadDelivered;
    hide WriteStored;
    hide StatusReported;
    match j.plan
    case Nothing(_) => NothingReports(v, w, j);
    case Reading(_, _) => ReadDelivers(v, w, j);
    case Writing(_, _) => WriteStores(v, w, j);
    case Unmodelled =>
  }

  // ---- What holds whatever fails ----

  // The image differs from the one before by a part of a WRITE in its place: bytes of the host from the first one on,
  // with at most one wrong byte for each fault. No other command changes it.
  ghost predicate StaysInRange(v: Snapshot, w: Snapshot, plan: Plan, host: seq<Byte>) {
    if plan.Unmodelled? then true
    else if plan.Writing? then
      exists data: seq<Byte> ::
        && Heard(data, host, w.faults - v.faults)
        && |data| <= plan.count * v.size && plan.start * v.size + |data| <= |v.image|
        && w.image == WriteAt(v.image, plan.start * v.size, data)
    else w.image == v.image
  }

  lemma FailuresStayInRange(v: Snapshot, w: Snapshot, j: Job)
    requires Reached(v, w, j)
    ensures StaysInRange(v, w, j.plan, j.host)
  {
    if j.plan.Writing? {
      PartIsHeard(j.received, j.host, w.faults - v.faults, j.stored);
    }
  }

  // All of it, for a command that has come to its end
  lemma Conclude(v: Snapshot, w: Snapshot, j: Job)
    requires Reached(v, w, j) && (AtMessage(w) || w.phase.BusFreePhase?)
    ensures w.faults >= v.faults && w.failures >= v.failures && (w.faults == v.faults ==> Told(v, w, j))
    ensures w.faults == v.faults && !j.success && !j.plan.Unmodelled? ==> EndsWithFailure(w.toHost, j.linked, j.flag)
    ensures w.faults == v.faults && w.failures == v.failures ==> Answered(v, w, j)
    ensures StaysInRange(v, w, j.plan, j.host)
  {
    CommandTells(v, w, j);
    hide Told;
    hide Answered;
    hide StaysInRange;
    hide EndsWithFailure;
    if w.faults == v.faults {
      if !j.success && !j.plan.Unmodelled? {
        FailureEnds(v, w, j);
      }
      if w.failures == v.failures {
        CommandAnswers(v, w, j);
      }
    }
    FailuresStayInRange(v, w, j);
  }

  // For a caller: without faults the data are a prefix of the host's bytes, and nothing outside the range changes ever.
  lemma StayingInRangeShows(v: Snapshot, w: Snapshot, start: nat, count: nat, host: seq<Byte>, k: nat)
    requires StaysInRange(v, w, Writing(start, count), host) && k < |v.image|
    ensures |w.image| == |v.image|
    ensures !(start * v.size <= k < start * v.size + count * v.size) ==> w.image[k] == v.image[k]
    ensures w.faults == v.faults && start * v.size <= k && w.image[k] != v.image[k] ==>
              k - start * v.size < |host| && w.image[k] == host[k - start * v.size]
  {
    hide WriteAt;
    hide Heard;
    var data: seq<Byte> :|
      && Heard(data, host, w.faults - v.faults)
      && |data| <= count * v.size && start * v.size + |data| <= |v.image|
      && w.image == WriteAt(v.image, start * v.size, data);
    ByteOfWrite(v.image, start * v.size, data, k);
    if w.faults == v.faults {
      HeardWithoutFaults(data, host);
    }
  }

  lemma ByteOfWrite(image: seq<Byte>, offset: nat, data: seq<Byte>, k: nat)
    requires offset + |data| <= |image| && k < |image|
    ensures |WriteAt(image, offset, data)| == |image|
    ensures WriteAt(image, offset, data)[k] == if offset <= k < offset + |data| then data[k - offset] else image[k]
  {
  }

  // ---- Two commands ----

  // A READ behind a WRITE of the same range delivers what was written.
  lemma ReadBehindWrite(a: Snapshot, b: Snapshot, c: Snapshot, d: Snapshot, start: nat, count: nat, host: seq<Byte>)
    requires WriteStored(a, b, start, count, host, false, false) && c.image == b.image && c.size == a.size
    requires c.toHost == b.toHost && ReadDelivered(c, d, start, count, false, false)
    ensures d.toHost == a.toHost + Ending(GOOD, false, false) + Tagged(DataInPhase, host[..count * a.size])
                        + Ending(GOOD, false, false)
  {
    var x, y := start * a.size, start * a.size + count * a.size;
    assert WriteAt(a.image, x, host[..count * a.size])[x..y] == host[..count * a.size];
  }

  // ---- A linked command that is refused ----

  // READ(10) of the last 32 bit address with the link bit
  const LINKED_READ: seq<Byte> := [0x28, 0, 0xff, 0xff, 0xff, 0xff, 0, 0, 1, 1]

  lemma LinkedReadIsRefused(host: seq<Byte>, cdb: seq<Byte>, x: Situation, plan: Plan, rest: seq<Byte>, linked: bool,
                            flag: bool)
    requires |cdb| == 16 && LINKED_READ <= host && Understood(host, cdb, x, plan, rest, linked, flag)
    requires x.ready.None? && x.identifiedLun in {-1, 0} && 0 < x.blocks < 0xffff_ffff
    requires x.size < LIMIT31
    ensures plan == Nothing(Some(OUT_OF_RANGE)) && linked && !flag
  {
    assert host[0] == 0x28 && host[..10] == LINKED_READ;
    assert cdb[..10] == LINKED_READ;
    assert forall i :: 0 <= i < 10 ==> cdb[i] == cdb[..10][i];
    assert GetInt32(cdb, 2) == 0xffff_ffff && GetInt16(cdb, 7) == 1;
    CheckIsExactUpToWrap(0xffff_ffff, 1, x.blocks);
  }
}
