// The REQ/ACK handshake that moves bytes from the target to the initiator: TargetSendHandShake on one
// side, InitiatorReceiveHandShake on the other, interleaved one shared access at a time.
// The two sides share REQ, ACK, the data byte and "do the phase lines still show the transfer phase".
// A wait is a step that is enabled when the polled line has the awaited level; giving up (three seconds
// without success, or RST) is a separate step, possible only after a poll saw the wrong level.
module DataInHandshake {
  import opened Basics
  import opened HandshakeOutcomes

  // data:  what the target sends, in one call for each chunk; ends holds the index behind each chunk
  // count: how many bytes the initiator asks for
  // live:  the initiator's phase check reads the shared word itself instead of its last sample
  datatype Config = Config(data: seq<Byte>, ends: set<nat>, count: nat, live: bool)

  datatype TargetAt =
    | PutData                 // SetDAT
    | AwaitAckLow             // wait for ACK to be released before raising REQ
    | RaiseReq                // SetREQ(true)
    | AwaitAckHigh            // wait for ACK
    | DropReq(acked: bool)    // SetREQ(false)
    | AwaitFinal(full: bool)  // the last wait of a call, its result is ignored
    | Returned                // the call for the last chunk, or a short call, has returned
    | MovedOn                 // the target has changed the phase lines and goes on with other business

  datatype InitiatorAt =
    | AwaitReqHigh            // wait for REQ
    | CheckPhase              // IsPhase behind the wait for REQ
    | GetData                 // GetDAT into the buffer
    | RaiseAck                // SetACK(true)
    | AwaitReqLow             // wait for REQ to be released
    | DropAck(seen: bool)     // SetACK(false)
    | Recheck(seen: bool)     // the test of the wait's result and the second IsPhase
    | Finished

  datatype State = State(
    t: TargetAt, sent: nat,
    i: InitiatorAt, got: nat, buffer: seq<Byte>, sample: bool,
    req: bool, ack: bool, dat: Byte, inPhase: bool)

  datatype Action =
    | Target | TargetGivesUp | Initiator | InitiatorGivesUp
    | MoveOn                        // the target leaves the transfer phase
    | Elsewhere(r: bool, d: Byte)   // the target, in another phase, drives REQ and the data lines

  function Start(c: Config, buffer: seq<Byte>): State {
    State(if c.data == [] then AwaitFinal(true) else PutData, 0,
          if c.count == 0 then Finished else AwaitReqHigh, 0, buffer, true,
          false, false, 0, true)
  }

  function TargetStep(c: Config, s: State): Option<State> {
    match s.t
    case PutData =>
      if s.sent < |c.data| then Some(s.(t := AwaitAckLow, dat := c.data[s.sent])) else None
    case AwaitAckLow => if s.ack then None else Some(s.(t := RaiseReq))
    case RaiseReq => Some(s.(t := AwaitAckHigh, req := true))
    case AwaitAckHigh => if s.ack then Some(s.(t := DropReq(true))) else None
    case DropReq(acked) =>
      if !acked then Some(s.(t := AwaitFinal(false), req := false))
      else
        var n := s.sent + 1;
        Some(s.(t := if n >= |c.data| || n in c.ends then AwaitFinal(true) else PutData, sent := n, req := false))
    case AwaitFinal(full) => if s.ack then None else Some(AfterCall(c, s))
    case Returned => None
    case MovedOn => None
  }

  // A call that sent its whole chunk is followed by the call for the next one.
  function AfterCall(c: Config, s: State): State
    requires s.t.AwaitFinal?
  {
    s.(t := if s.t.full && s.sent < |c.data| then PutData else Returned)
  }

  function TargetGiveUp(c: Config, s: State): Option<State> {
    match s.t
    case AwaitAckLow => if s.ack then Some(s.(t := Returned)) else None
    case AwaitAckHigh => if s.ack then None else Some(s.(t := DropReq(false)))
    case AwaitFinal(full) => if s.ack then Some(AfterCall(c, s)) else None
    case _ => None
  }

  function SeesPhase(c: Config, s: State): bool {
    if c.live then s.inPhase else s.sample
  }

  function InitiatorStep(c: Config, s: State): Option<State> {
    match s.i
    case AwaitReqHigh => if s.req then Some(s.(i := CheckPhase, sample := s.inPhase)) else None
    case CheckPhase => Some(s.(i := if SeesPhase(c, s) then GetData else Finished))
    case GetData =>
      if s.got < |s.buffer|
      then Some(s.(i := RaiseAck, buffer := s.buffer[s.got := s.dat], sample := s.inPhase)) else None
    case RaiseAck => Some(s.(i := AwaitReqLow, ack := true))
    case AwaitReqLow => if s.req then None else Some(s.(i := DropAck(true), sample := s.inPhase))
    case DropAck(seen) => Some(s.(i := Recheck(seen), ack := false))
    case Recheck(seen) =>
      if !seen || !SeesPhase(c, s) then Some(s.(i := Finished))
      else
        var n := s.got + 1;
        Some(s.(i := if n >= c.count then Finished else AwaitReqHigh, got := n))
    case Finished => None
  }

  function InitiatorGiveUp(s: State): Option<State> {
    match s.i
    case AwaitReqHigh => if s.req then None else Some(s.(i := Finished, sample := s.inPhase))
    case AwaitReqLow => if s.req then Some(s.(i := DropAck(false), sample := s.inPhase)) else None
    case _ => None
  }

  function Step(c: Config, s: State, a: Action): Option<State> {
    match a
    case Target => TargetStep(c, s)
    case TargetGivesUp => TargetGiveUp(c, s)
    case Initiator => InitiatorStep(c, s)
    case InitiatorGivesUp => InitiatorGiveUp(s)
    case MoveOn => if s.t.Returned? then Some(s.(t := MovedOn, inPhase := false)) else None
    case Elsewhere(r, d) => if s.t.MovedOn? then Some(s.(req := r, dat := d)) else None
  }

  // The state after a schedule, None when one of its steps is not enabled.
  function Run(c: Config, s: State, schedule: seq<Action>): Option<State>
    decreases |schedule|
  {
    if schedule == [] then Some(s)
    else
      match Step(c, s, schedule[0])
      case None => None
      case Some(next) => Run(c, next, schedule[1..])
  }

  predicate NoGiveUp(schedule: seq<Action>) {
    forall k :: 0 <= k < |schedule| ==> !schedule[k].TargetGivesUp? && !schedule[k].InitiatorGivesUp?
  }

  // ---- What every step keeps, timeouts included ----

  // The target is between bytes: it has not raised REQ for byte number sent.
  predicate BetweenBytes(s: State) {
    s.t.PutData? || s.t.AwaitAckLow? || s.t.RaiseReq? || s.t == AwaitFinal(true)
  }

  predicate Lines(s: State) {
    && (!s.t.MovedOn? ==> s.req == (s.t.AwaitAckHigh? || s.t.DropReq?))
    && s.ack == (s.i.AwaitReqLow? || s.i.DropAck?)
    && s.inPhase == !s.t.MovedOn?
    && (s.t.RaiseReq? ==> !s.ack)
    && (!s.t.MovedOn? ==> s.sample)
  }

  predicate InBounds(c: Config, s: State) {
    && s.sent <= |c.data| && s.got <= c.count && |s.buffer| == c.count
    && (s.t.PutData? || s.t.AwaitAckLow? || s.t.RaiseReq? || s.t.AwaitAckHigh? || s.t.DropReq? ==> s.sent < |c.data|)
    && (!s.i.Finished? ==> s.got < c.count)
  }

  predicate DataLines(c: Config, s: State)
    requires InBounds(c, s)
  {
    && (s.t.AwaitAckLow? || s.t.RaiseReq? || s.t.AwaitAckHigh? || s.t.DropReq? ==> s.dat == c.data[s.sent])
    && (s.t == AwaitFinal(false) || s.t.Returned? ==>
          (s.i.CheckPhase? && SeesPhase(c, s)) || s.i.GetData? ==> s.sent < |c.data| && s.dat == c.data[s.sent])
  }

  // The initiator is about to take byte number sent, or has taken it and not counted it.
  predicate OnCurrentByte(i: InitiatorAt) {
    i.AwaitReqHigh? || i.CheckPhase? || i.GetData? || i.RaiseAck? || i.AwaitReqLow? || i == DropAck(false)
      || i == Recheck(false)
  }

  // The initiator has taken the byte before sent and not counted it yet.
  predicate OnPreviousByte(i: InitiatorAt) {
    i.AwaitReqLow? || i.DropAck? || i.Recheck?
  }

  predicate Together(c: Config, s: State) {
    && (BetweenBytes(s) ==>
          || (s.got == s.sent && (s.i.AwaitReqHigh? || s.i.Finished?))
          || (s.sent == s.got + 1 && (OnPreviousByte(s.i) || s.i.Finished?)))
    && (s.t.AwaitAckHigh? || s.t == DropReq(false) ==>
          || (s.got == s.sent && (OnCurrentByte(s.i) || s.i.Finished?))
          || (s.sent == s.got + 1 && (s.i.Recheck? || s.i.Finished?)))
    && (s.t == DropReq(true) ==>
          s.got == s.sent && (s.i.AwaitReqLow? || s.i == DropAck(false) || s.i == Recheck(false) || s.i.Finished?))
    && (s.t == AwaitFinal(false) || s.t.Returned? || s.t.MovedOn? ==>
          && s.got <= s.sent + 1 && s.sent <= s.got + 1
          && (s.got == s.sent + 1 ==>
                s.i.AwaitReqHigh? || s.i.Finished? || (s.i.CheckPhase? && !SeesPhase(c, s)))
          && (s.i.CheckPhase? && SeesPhase(c, s) ==> s.got == s.sent < |c.data|)
          && (s.i.GetData? || s.i.RaiseAck? ==> s.got == s.sent < |c.data|))
  }

  // The byte in hand is the target's byte, unless the coming phase checks are bound to reject it.
  predicate InHand(c: Config, s: State)
    requires InBounds(c, s)
  {
    (s.i.RaiseAck? || s.i.AwaitReqLow? || s.i.DropAck? || s.i.Recheck?) ==>
      || (s.got < |c.data| && s.buffer[s.got] == c.data[s.got])
      || (s.t.MovedOn? && (s.i.RaiseAck? || s.i.AwaitReqLow? || !SeesPhase(c, s)))
  }

  predicate Counted(c: Config, s: State) {
    s.got <= |c.data| && s.got <= |s.buffer| && s.buffer[..s.got] == c.data[..s.got]
  }

  predicate Inv(c: Config, s: State) {
    Lines(s) && InBounds(c, s) && DataLines(c, s) && Together(c, s) && InHand(c, s) && Counted(c, s)
  }

  lemma StartInv(c: Config, buffer: seq<Byte>)
    requires |buffer| == c.count
    ensures Inv(c, Start(c, buffer))
  {
  }

  lemma TargetKeepsInv(c: Config, s: State)
    requires Inv(c, s) && TargetStep(c, s).Some?
    ensures Inv(c, TargetStep(c, s).value)
  {
  }

  lemma TargetGiveUpKeepsInv(c: Config, s: State)
    requires Inv(c, s) && TargetGiveUp(c, s).Some?
    ensures Inv(c, TargetGiveUp(c, s).value)
  {
  }

  lemma InitiatorKeepsLines(c: Config, s: State)
    requires Inv(c, s) && InitiatorStep(c, s).Some?
    ensures Lines(InitiatorStep(c, s).value) && InBounds(c, InitiatorStep(c, s).value)
    ensures DataLines(c, InitiatorStep(c, s).value)
  {
    hide InHand;
    hide Counted;
    InitiatorKeepsDataLines(c, s);
    hide DataLines;
  }

  lemma InitiatorKeepsDataLines(c: Config, s: State)
    requires Lines(s) && InBounds(c, s) && DataLines(c, s) && Together(c, s) && InitiatorStep(c, s).Some?
    ensures InBounds(c, InitiatorStep(c, s).value) && DataLines(c, InitiatorStep(c, s).value)
  {
  }

  lemma InitiatorKeepsTogether(c: Config, s: State)
    requires Lines(s) && InBounds(c, s) && DataLines(c, s) && Together(c, s) && InitiatorStep(c, s).Some?
    ensures Together(c, InitiatorStep(c, s).value)
  {
  }

  lemma InitiatorKeepsBytes(c: Config, s: State)
    requires Inv(c, s) && InitiatorStep(c, s).Some? && InBounds(c, InitiatorStep(c, s).value)
    ensures InHand(c, InitiatorStep(c, s).value)
  {
  }

  lemma InitiatorKeepsCounted(c: Config, s: State)
    requires Inv(c, s) && InitiatorStep(c, s).Some?
    ensures Counted(c, InitiatorStep(c, s).value)
  {
  }

  lemma InitiatorGiveUpKeepsInv(c: Config, s: State)
    requires Inv(c, s) && InitiatorGiveUp(s).Some?
    ensures Inv(c, InitiatorGiveUp(s).value)
  {
  }

  lemma StepKeepsInv(c: Config, s: State, a: Action)
    requires Inv(c, s) && Step(c, s, a).Some?
    ensures Inv(c, Step(c, s, a).value)
  {
    match a
    case Target => TargetKeepsInv(c, s);
    case TargetGivesUp => TargetGiveUpKeepsInv(c, s);
    case Initiator =>
      InitiatorKeepsLines(c, s);
      InitiatorKeepsTogether(c, s);
      InitiatorKeepsBytes(c, s);
      InitiatorKeepsCounted(c, s);
    case InitiatorGivesUp => InitiatorGiveUpKeepsInv(c, s);
    case MoveOn =>
    case Elsewhere(_, _) =>
  }

  // In every interleaving, with waits given up anywhere: each byte the initiator counted is the byte the
  // target put out at that index, and the two returned counts differ by at most one.
  lemma {:induction false} CountedBytesAreSentBytes(c: Config, s: State, schedule: seq<Action>)
    requires Inv(c, s) && Run(c, s, schedule).Some?
    ensures Inv(c, Run(c, s, schedule).value)
    ensures var end := Run(c, s, schedule).value;
            && end.got <= |c.data| && |end.buffer| == c.count && end.got <= c.count
            && end.buffer[..end.got] == c.data[..end.got]
            && end.got <= end.sent + 1 && end.sent <= end.got + 1
    decreases |schedule|
  {
    if schedule != [] {
      StepKeepsInv(c, s, schedule[0]);
      CountedBytesAreSentBytes(c, Step(c, s, schedule[0]).value, schedule[1..]);
    }
  }

  // ---- What the target may conclude from its count ----

  // What the target has counted is in the initiator's buffer, and so is the byte whose acknowledge it has seen.
  predicate Arrived(c: Config, s: State)
    requires InBounds(c, s)
  {
    && s.sent <= c.count && s.buffer[..s.sent] == c.data[..s.sent]
    && (s.t == DropReq(true) ==> s.sent < c.count && s.buffer[s.sent] == c.data[s.sent])
  }

  lemma PrefixGrows(a: seq<Byte>, b: seq<Byte>, n: nat)
    requires n < |a| && n < |b| && a[..n] == b[..n] && a[n] == b[n]
    ensures a[..n + 1] == b[..n + 1]
  {
    assert a[..n + 1] == a[..n] + [a[n]] && b[..n + 1] == b[..n] + [b[n]];
  }

  lemma StepKeepsArrived(c: Config, s: State, a: Action)
    requires Inv(c, s) && Arrived(c, s) && Step(c, s, a).Some?
    requires InBounds(c, Step(c, s, a).value)
    ensures Arrived(c, Step(c, s, a).value)
  {
    if a.Target? && s.t == DropReq(true) {
      PrefixGrows(s.buffer, c.data, s.sent);
    }
    if a.Initiator? && s.i.GetData? {
      assert s.sent <= s.got;
      assert s.buffer[s.got := s.dat][..s.sent] == s.buffer[..s.sent];
    }
  }

  lemma {:induction false} RunKeepsArrived(c: Config, s: State, schedule: seq<Action>)
    requires Inv(c, s) && Arrived(c, s) && Run(c, s, schedule).Some?
    ensures Inv(c, Run(c, s, schedule).value) && Arrived(c, Run(c, s, schedule).value)
    decreases |schedule|
  {
    if schedule != [] {
      StepKeepsInv(c, s, schedule[0]);
      StepKeepsArrived(c, s, schedule[0]);
      RunKeepsArrived(c, Step(c, s, schedule[0]).value, schedule[1..]);
    }
  }

  function GiveUps(schedule: seq<Action>): nat {
    if schedule == [] then 0
    else (if schedule[0].TargetGivesUp? || schedule[0].InitiatorGivesUp? then 1 else 0) + GiveUps(schedule[1..])
  }

  lemma {:induction false} GiveUpsAdd(a: seq<Action>, b: seq<Action>)
    ensures GiveUps(a + b) == GiveUps(a) + GiveUps(b)
    decreases |a|
  {
    if a == [] {
      assert a + b == b;
    } else {
      assert (a + b)[1..] == a[1..] + b;
      GiveUpsAdd(a[1..], b);
    }
  }

  // A target that has not given up a wait returns with its full count.
  predicate Steady(c: Config, s: State) {
    && s.t != DropReq(false) && s.t != AwaitFinal(false)
    && (s.t.Returned? || s.t.MovedOn? ==> s.sent == |c.data|)
  }

  lemma {:induction false} NoGiveUpStaysSteady(c: Config, s: State, schedule: seq<Action>)
    requires Inv(c, s) && Steady(c, s) && Run(c, s, schedule).Some? && GiveUps(schedule) == 0
    ensures Steady(c, Run(c, s, schedule).value)
    decreases |schedule|
  {
    if schedule != [] {
      StepKeepsInv(c, s, schedule[0]);
      NoGiveUpStaysSteady(c, Step(c, s, schedule[0]).value, schedule[1..]);
    }
  }

  // Whenever the target's last call has returned, the handshakes have had the outcome that the target's side of the bus
  // assumes, for every interleaving and all waits given up.
  lemma RunHasSendOutcome(c: Config, buffer: seq<Byte>, schedule: seq<Action>)
    requires |buffer| == c.count && Run(c, Start(c, buffer), schedule).Some?
    requires var end := Run(c, Start(c, buffer), schedule).value; end.t.Returned? || end.t.MovedOn?
    ensures var end := Run(c, Start(c, buffer), schedule).value;
            var n := if end.sent < end.got then end.got else end.sent;
            n <= |end.buffer| && SendOutcome(c.data, end.sent, end.buffer[..n], GiveUps(schedule))
  {
    var s := Start(c, buffer);
    StartInv(c, buffer);
    RunKeepsArrived(c, s, schedule);
    CountedBytesAreSentBytes(c, s, schedule);
    if GiveUps(schedule) == 0 {
      NoGiveUpStaysSteady(c, s, schedule);
    }
  }

  // ---- Every run ends ----

  function TargetRank(c: Config, s: State): nat
    requires s.sent <= |c.data|
  {
    6 * (|c.data| - s.sent) +
    match s.t
    case AwaitFinal(full) => if full then 8 else 2
    case PutData => 7
    case AwaitAckLow => 6
    case RaiseReq => 5
    case AwaitAckHigh => 4
    case DropReq(_) => 3
    case Returned => 1
    case MovedOn => 0
  }

  function InitiatorRank(c: Config, s: State): nat
    requires s.got <= c.count
  {
    7 * (c.count - s.got) +
    match s.i
    case AwaitReqHigh => 7
    case CheckPhase => 6
    case GetData => 5
    case RaiseAck => 4
    case AwaitReqLow => 3
    case DropAck(_) => 2
    case Recheck(_) => 1
    case Finished => 0
  }

  function Rank(c: Config, s: State): nat
    requires InBounds(c, s)
  {
    TargetRank(c, s) + InitiatorRank(c, s)
  }

  lemma TargetLowersRank(c: Config, s: State, next: State)
    requires InBounds(c, s) && InBounds(c, next)
    requires TargetStep(c, s) == Some(next) || TargetGiveUp(c, s) == Some(next)
    ensures TargetRank(c, next) < TargetRank(c, s)
    ensures InitiatorRank(c, next) == InitiatorRank(c, s)
  {
  }

  lemma InitiatorLowersRank(c: Config, s: State, next: State)
    requires InBounds(c, s) && InBounds(c, next)
    requires InitiatorStep(c, s) == Some(next) || InitiatorGiveUp(s) == Some(next)
    ensures InitiatorRank(c, next) < InitiatorRank(c, s)
    ensures TargetRank(c, next) == TargetRank(c, s)
  {
    assert next.t == s.t && next.sent == s.sent;
    hide InBounds;
  }

  lemma StepLowersRank(c: Config, s: State, a: Action)
    requires InBounds(c, s) && Step(c, s, a).Some? && InBounds(c, Step(c, s, a).value)
    ensures if a.Elsewhere? then Rank(c, Step(c, s, a).value) == Rank(c, s)
            else Rank(c, Step(c, s, a).value) < Rank(c, s)
  {
    var next := Step(c, s, a).value;
    match a
    case Target => TargetLowersRank(c, s, next);
    case TargetGivesUp => TargetLowersRank(c, s, next);
    case Initiator => InitiatorLowersRank(c, s, next);
    case InitiatorGivesUp => InitiatorLowersRank(c, s, next);
    case MoveOn =>
    case Elsewhere(_, _) =>
  }

  // The steps of a schedule that belong to the two handshake calls.
  function HandshakeSteps(schedule: seq<Action>): nat {
    if schedule == [] then 0
    else (if schedule[0].Elsewhere? then 0 else 1) + HandshakeSteps(schedule[1..])
  }

  // No schedule can keep the two calls going: their steps are bounded by the bytes to move.
  lemma {:induction false} EveryRunEnds(c: Config, s: State, schedule: seq<Action>)
    requires Inv(c, s) && Run(c, s, schedule).Some?
    ensures HandshakeSteps(schedule) <= Rank(c, s)
    decreases |schedule|
  {
    if schedule != [] {
      StepKeepsInv(c, s, schedule[0]);
      StepLowersRank(c, s, schedule[0]);
      EveryRunEnds(c, Step(c, s, schedule[0]).value, schedule[1..]);
    }
  }

  // ---- Runs in which no wait is given up and both sides agree on the length ----

  predicate Smooth(c: Config, s: State)
    requires InBounds(c, s)
  {
    && s.t != DropReq(false) && s.t != AwaitFinal(false) && s.i != DropAck(false) && s.i != Recheck(false)
    && (s.t.Returned? || s.t.MovedOn? ==> s.sent == |c.data| && (s.i == Recheck(true) || s.i.Finished?))
    && (s.i == Recheck(true) && (s.t.Returned? || s.t.MovedOn?) ==> s.sent == s.got + 1)
    && (s.i.CheckPhase? || s.i.GetData? || s.i.RaiseAck? ==> s.t.AwaitAckHigh? && s.sample)
    && (s.i.RaiseAck? || s.i.AwaitReqLow? || s.i.DropAck? || s.i.Recheck? ==>
          s.sample && s.got < |c.data| && s.buffer[s.got] == c.data[s.got])
    && (s.i.Finished? ==>
          && s.buffer == c.data
          && (s.got == c.count || (c.live && s.t.MovedOn? && s.got + 1 == c.count)))
  }

  lemma TargetKeepsSmooth(c: Config, s: State)
    requires Inv(c, s) && Smooth(c, s) && c.count == |c.data| && TargetStep(c, s).Some?
    requires InBounds(c, TargetStep(c, s).value)
    ensures Smooth(c, TargetStep(c, s).value)
  {
  }

  lemma InitiatorKeepsSmooth(c: Config, s: State)
    requires Inv(c, s) && Smooth(c, s) && c.count == |c.data| && InitiatorStep(c, s).Some?
    requires InBounds(c, InitiatorStep(c, s).value)
    ensures Smooth(c, InitiatorStep(c, s).value)
  {
  }

  lemma {:induction false} RunKeepsSmooth(c: Config, s: State, schedule: seq<Action>)
    requires Inv(c, s) && Smooth(c, s) && c.count == |c.data|
    requires NoGiveUp(schedule) && Run(c, s, schedule).Some?
    ensures Inv(c, Run(c, s, schedule).value) && Smooth(c, Run(c, s, schedule).value)
    decreases |schedule|
  {
    if schedule != [] {
      var a := schedule[0];
      StepKeepsInv(c, s, a);
      match a {
        case Target => TargetKeepsSmooth(c, s);
        case Initiator => InitiatorKeepsSmooth(c, s);
        case MoveOn =>
        case Elsewhere(_, _) =>
      }
      RunKeepsSmooth(c, Step(c, s, a).value, schedule[1..]);
    }
  }

  predicate Stuck(c: Config, s: State) {
    TargetStep(c, s).None? && InitiatorStep(c, s).None?
  }

  predicate BothReturned(s: State) {
    (s.t.Returned? || s.t.MovedOn?) && s.i.Finished?
  }

  lemma SmoothNeverDeadlocks(c: Config, s: State)
    requires Inv(c, s) && Smooth(c, s) && c.count == |c.data|
    ensures Stuck(c, s) <==> BothReturned(s)
  {
  }

  // Without timeouts no reachable state deadlocks, and when both calls have returned the buffer is the
  // data. The initiator's count is the full count, except that on the shared word it may be one short,
  // and then only if the target had already changed the phase.
  lemma NoTimeoutDelivers(c: Config, buffer: seq<Byte>, schedule: seq<Action>)
    requires c.count == |c.data| == |buffer|
    requires NoGiveUp(schedule) && Run(c, Start(c, buffer), schedule).Some?
    ensures var end := Run(c, Start(c, buffer), schedule).value;
            && (Stuck(c, end) <==> BothReturned(end))
            && (BothReturned(end) ==>
                  && end.sent == |c.data| && end.buffer == c.data
                  && (end.got == c.count || end.got + 1 == c.count)
                  && (!c.live || !end.t.MovedOn? ==> end.got == c.count))
  {
    StartInv(c, buffer);
    RunKeepsSmooth(c, Start(c, buffer), schedule);
    SmoothNeverDeadlocks(c, Run(c, Start(c, buffer), schedule).value);
  }

  lemma {:induction false} RunConcat(c: Config, s: State, a: seq<Action>, b: seq<Action>)
    requires Run(c, s, a).Some?
    ensures Run(c, s, a + b) == Run(c, Run(c, s, a).value, b)
    decreases |a|
  {
    if a == [] {
      assert a + b == b;
    } else {
      assert (a + b)[1..] == a[1..] + b;
      RunConcat(c, Step(c, s, a[0]).value, a[1..], b);
    }
  }

  lemma RunFive(c: Config, s0: State, s1: State, s2: State, s3: State, s4: State, s5: State, schedule: seq<Action>)
    requires |schedule| == 5
    requires Step(c, s0, schedule[0]) == Some(s1) && Step(c, s1, schedule[1]) == Some(s2)
    requires Step(c, s2, schedule[2]) == Some(s3) && Step(c, s3, schedule[3]) == Some(s4)
    requires Step(c, s4, schedule[4]) == Some(s5)
    ensures Run(c, s0, schedule) == Some(s5)
  {
    assert schedule[4..][1..] == [];
    assert Run(c, s4, schedule[4..]) == Some(s5);
    assert schedule[3..][1..] == schedule[4..];
    assert Run(c, s3, schedule[3..]) == Some(s5);
    assert schedule[2..][1..] == schedule[3..];
    assert Run(c, s2, schedule[2..]) == Some(s5);
    assert schedule[1..][1..] == schedule[2..];
    assert Run(c, s1, schedule[1..]) == Some(s5);
  }

  // The state in which byte number k comes next, and no step of it has been taken.
  function Ready(c: Config, k: nat, buffer: seq<Byte>, d: Byte): State
    requires k < |c.data|
  {
    State(PutData, k, AwaitReqHigh, k, buffer, true, false, false, d, true)
  }

  // The byte has been acknowledged, and REQ is released.
  function Acknowledged(c: Config, k: nat, buffer: seq<Byte>): State
    requires k < |c.data|
  {
    State(if k + 1 >= |c.data| || k + 1 in c.ends then AwaitFinal(true) else PutData, k + 1,
          DropAck(true), k, buffer, true, false, true, c.data[k], true)
  }

  const OFFER: seq<Action> := [Target, Target, Target, Initiator, Initiator]
  const TAKE: seq<Action> := [Initiator, Initiator, Target, Target, Initiator]

  lemma OneByte(c: Config, k: nat, buffer: seq<Byte>, d: Byte)
    requires k < |c.data| == c.count == |buffer|
    ensures Run(c, Ready(c, k, buffer, d), OFFER + TAKE) == Some(Acknowledged(c, k, buffer[k := c.data[k]]))
  {
    var s0, e := Ready(c, k, buffer, d), c.data[k];
    var offered := s0.(t := AwaitAckHigh, dat := e, req := true, i := GetData);
    RunFive(c, s0, s0.(t := AwaitAckLow, dat := e), s0.(t := RaiseReq, dat := e),
            s0.(t := AwaitAckHigh, dat := e, req := true), offered.(i := CheckPhase), offered, OFFER);
    var taken := offered.(buffer := buffer[k := e]);
    var last := Acknowledged(c, k, buffer[k := e]);
    RunFive(c, offered, taken.(i := RaiseAck), taken.(i := AwaitReqLow, ack := true),
            taken.(i := AwaitReqLow, ack := true, t := DropReq(true)), last.(i := AwaitReqLow), last, TAKE);
    RunConcat(c, s0, OFFER, TAKE);
  }

  // On to the next byte
  function Between(c: Config, k: nat): seq<Action> {
    [Initiator, Initiator] + if k + 1 in c.ends then [Target] else []
  }

  lemma NextByte(c: Config, k: nat, buffer: seq<Byte>)
    requires k + 1 < |c.data| == c.count == |buffer|
    ensures Run(c, Acknowledged(c, k, buffer), Between(c, k)) == Some(Ready(c, k + 1, buffer, c.data[k]))
  {
    var s := Acknowledged(c, k, buffer);
    var low, next := s.(i := Recheck(true), ack := false), s.(i := AwaitReqHigh, ack := false, got := k + 1);
    var more := if k + 1 in c.ends then [Target] else [];
    assert Run(c, next, more) == Some(Ready(c, k + 1, buffer, c.data[k]));
    assert Between(c, k)[1..] == [Initiator] + more && ([Initiator] + more)[1..] == more;
    assert Step(c, s, Initiator) == Some(low) && Step(c, low, Initiator) == Some(next);
  }

  lemma NoGiveUpConcat(a: seq<Action>, b: seq<Action>)
    requires NoGiveUp(a) && NoGiveUp(b)
    ensures NoGiveUp(a + b)
  {
  }

  // The last byte is in the buffer, the target has changed the phase, and only then does the initiator check it.
  const RACE: seq<Action> := [Initiator, Target, MoveOn, Elsewhere(false, 0), Initiator]

  lemma RaceEnds(c: Config, k: nat, buffer: seq<Byte>)
    requires k + 1 == |c.data| == c.count == |buffer| && c.live
    ensures var end := Run(c, Acknowledged(c, k, buffer), RACE);
            end.Some? && BothReturned(end.value) && end.value.got + 1 == c.count
  {
    var s := Acknowledged(c, k, buffer);
    var low := s.(i := Recheck(true), ack := false);
    var on := low.(t := MovedOn, inPhase := false);
    RunFive(c, s, low, low.(t := Returned), on, on.(req := false, dat := 0),
            on.(req := false, dat := 0, i := Finished), RACE);
  }

  lemma {:induction false} OneShortFrom(c: Config, k: nat, buffer: seq<Byte>, d: Byte) returns (schedule: seq<Action>)
    requires k < |c.data| == c.count == |buffer| && c.live
    ensures NoGiveUp(schedule)
    ensures var end := Run(c, Ready(c, k, buffer, d), schedule);
            end.Some? && BothReturned(end.value) && end.value.got + 1 == c.count
    decreases |c.data| - k
  {
    var s, after := Ready(c, k, buffer, d), buffer[k := c.data[k]];
    OneByte(c, k, buffer, d);
    NoGiveUpConcat(OFFER, TAKE);
    var rest;
    if k + 1 == |c.data| {
      RaceEnds(c, k, after);
      rest := RACE;
    } else {
      NextByte(c, k, after);
      var more := OneShortFrom(c, k + 1, after, c.data[k]);
      RunConcat(c, Acknowledged(c, k, after), Between(c, k), more);
      NoGiveUpConcat(Between(c, k), more);
      rest := Between(c, k) + more;
    }
    RunConcat(c, s, OFFER + TAKE, rest);
    NoGiveUpConcat(OFFER + TAKE, rest);
    schedule := OFFER + TAKE + rest;
  }

  // Without timeouts and with equal lengths the initiator's count can come out one short exactly if it reads the shared
  // word and there is something to receive.
  lemma OneShortIsPossible(c: Config, buffer: seq<Byte>)
    requires c.count == |c.data| == |buffer|
    ensures (exists schedule ::
               && NoGiveUp(schedule) && Run(c, Start(c, buffer), schedule).Some?
               && var end := Run(c, Start(c, buffer), schedule).value;
                  BothReturned(end) && end.got != c.count)
            <==> c.live && c.data != []
  {
    if c.live && c.data != [] {
      var schedule := OneShortFrom(c, 0, buffer, 0);
      assert Start(c, buffer) == Ready(c, 0, buffer, 0);
    }
    forall schedule | NoGiveUp(schedule) && Run(c, Start(c, buffer), schedule).Some?
      ensures var end := Run(c, Start(c, buffer), schedule).value;
              BothReturned(end) && end.got != c.count ==> c.live && c.data != []
    {
      NoTimeoutDelivers(c, buffer, schedule);
    }
  }

  // ---- The end of each call ----

  // A call has sent its chunk and returned, and the initiator has nothing to acknowledge.
  predicate Ended(c: Config, s: State) {
    (s.t.PutData? && s.sent in c.ends) || s.t.Returned? ==> s.i.Recheck? || s.i.AwaitReqHigh? || s.i.Finished?
  }

  lemma StepKeepsEnded(c: Config, s: State, a: Action)
    requires Inv(c, s) && Ended(c, s) && Steady(c, s) && Step(c, s, a).Some?
    requires !a.TargetGivesUp? && !a.InitiatorGivesUp?
    ensures Ended(c, Step(c, s, a).value) && Steady(c, Step(c, s, a).value)
  {
    hide DataLines;
    hide InHand;
    hide Counted;
  }

  lemma {:induction false} RunKeepsEnded(c: Config, s: State, schedule: seq<Action>)
    requires Inv(c, s) && Ended(c, s) && Steady(c, s) && NoGiveUp(schedule) && Run(c, s, schedule).Some?
    ensures var end := Run(c, s, schedule).value;
            (end.t.PutData? && end.sent in c.ends) || end.t.Returned? ==> !end.ack && !end.req
    decreases |schedule|
  {
    if schedule != [] {
      StepKeepsInv(c, s, schedule[0]);
      StepKeepsEnded(c, s, schedule[0]);
      RunKeepsEnded(c, Step(c, s, schedule[0]).value, schedule[1..]);
    }
  }

  // Unless a wait has been given up, each call returns behind its whole chunk, once ACK has been released.
  lemma CallsEndReleased(c: Config, buffer: seq<Byte>, schedule: seq<Action>)
    requires |buffer| == c.count && NoGiveUp(schedule) && Run(c, Start(c, buffer), schedule).Some?
    ensures var end := Run(c, Start(c, buffer), schedule).value;
            (end.t.PutData? && end.sent in c.ends) || end.t.Returned? ==> !end.ack && !end.req
  {
    StartInv(c, buffer);
    RunKeepsEnded(c, Start(c, buffer), schedule);
  }

  // ---- A run, one step at a time ----

  // As long as the target has not returned it can take a step or give up its wait.
  function TargetMoves(c: Config, s: State): (a: Action)
    requires Inv(c, s) && !s.t.Returned? && !s.t.MovedOn?
    ensures Step(c, s, a).Some? && (a.Target? || a.TargetGivesUp?)
  {
    if TargetStep(c, s).Some? then Target else TargetGivesUp
  }

  predicate RunsTo(c: Config, buffer: seq<Byte>, schedule: seq<Action>, s: State, giveUps: nat) {
    Inv(c, s) && Run(c, Start(c, buffer), schedule) == Some(s) && giveUps == GiveUps(schedule)
  }

  function GiveUp(a: Action): nat {
    if a.TargetGivesUp? || a.InitiatorGivesUp? then 1 else 0
  }

  lemma OneStepMore(c: Config, buffer: seq<Byte>, schedule: seq<Action>, s: State, giveUps: nat, a: Action)
    requires RunsTo(c, buffer, schedule, s, giveUps) && Step(c, s, a).Some?
    ensures var next := Step(c, s, a).value;
            && RunsTo(c, buffer, schedule + [a], next, giveUps + GiveUp(a))
            && Rank(c, next) <= Rank(c, s) && (a.Elsewhere? || Rank(c, next) < Rank(c, s))
  {
    StepKeepsInv(c, s, a);
    StepLowersRank(c, s, a);
    hide Step;
    hide Inv;
    hide Rank;
    RunConcat(c, Start(c, buffer), schedule, [a]);
    GiveUpsAdd(schedule, [a]);
    assert [a][1..] == [];
  }

  // Both sides take steps and give up waits in any order until the target's call has returned.
  method Exchange(c: Config, buffer: seq<Byte>) returns (s: State, giveUps: nat, ghost schedule: seq<Action>)
    requires |buffer| == c.count
    ensures RunsTo(c, buffer, schedule, s, giveUps) && s.t.Returned?
  {
    s, giveUps, schedule := Start(c, buffer), 0, [];
    StartInv(c, buffer);
    while !s.t.Returned?
      invariant RunsTo(c, buffer, schedule, s, giveUps) && !s.t.MovedOn?
      decreases Rank(c, s)
    {
      var a: Action := *;
      if a.MoveOn? || a.Elsewhere? || Step(c, s, a).None? {
        a := TargetMoves(c, s);
      }
      OneStepMore(c, buffer, schedule, s, giveUps, a);
      StaysInPhase(c, s, a);
      s, giveUps, schedule := Step(c, s, a).value, giveUps + GiveUp(a), schedule + [a];
    }
  }

  lemma StaysInPhase(c: Config, s: State, a: Action)
    requires !a.MoveOn? && !s.t.MovedOn? && Step(c, s, a).Some?
    ensures !Step(c, s, a).value.t.MovedOn?
  {
  }
}
