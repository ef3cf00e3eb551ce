// The REQ/ACK handshake that moves bytes from the initiator to the target: InitiatorSendHandShake on one
// side, TargetReceiveHandShake on the other, interleaved one shared access at a time, with the same
// treatment of waits and of the phase lines as in the other direction. The target's calls for successive
// chunks have no shared access between them, so they appear as one call.
module DataOutHandshake {
  import opened Basics
  import opened HandshakeOutcomes

  // data: what the initiator sends; count: how many bytes the target asks for
  // live: the initiator's phase check reads the shared word itself instead of its last sample
  datatype Config = Config(data: seq<Byte>, count: nat, live: bool)

  datatype TargetAt =
    | RaiseReq                // SetREQ(true)
    | AwaitAckHigh            // wait for ACK
    | GetData(acked: bool)    // GetDAT into the buffer, also after a timeout
    | DropReq(acked: bool)    // SetREQ(false)
    | AwaitAckLow             // wait for ACK to be released
    | Returned
    | MovedOn                 // the target has changed the phase lines

  datatype InitiatorAt =
    | PutData                 // SetDAT
    | AwaitReqHigh            // wait for REQ
    | CheckPhase              // IsPhase behind the wait for REQ
    | RaiseAck                // SetACK(true)
    | AwaitReqLow             // wait for REQ to be released
    | DropAck(seen: bool)     // SetACK(false)
    | Recheck(seen: bool)     // the test of the wait's result and the second IsPhase
    | Finished

  datatype State = State(
    t: TargetAt, got: nat, buffer: seq<Byte>,
    i: InitiatorAt, sent: nat, sample: bool,
    req: bool, ack: bool, dat: Byte, inPhase: bool)

  datatype Action =
    | Target | TargetGivesUp | Initiator | InitiatorGivesUp
    | MoveOn                // the target leaves the transfer phase
    | Elsewhere(r: bool)    // the target, in another phase, drives REQ
    | Reuse(d: Byte)        // the initiator, its call finished, puts something else on the data lines

  function Start(c: Config, buffer: seq<Byte>): State {
    State(if c.count == 0 then Returned else RaiseReq, 0, buffer,
          if c.data == [] then Finished else PutData, 0, true, false, false, 0, true)
  }

  function TargetStep(c: Config, s: State): Option<State> {
    match s.t
    case RaiseReq => Some(s.(t := AwaitAckHigh, req := true))
    case AwaitAckHigh => if s.ack then Some(s.(t := GetData(true))) else None
    case GetData(acked) =>
      if s.got < |s.buffer| then Some(s.(t := DropReq(acked), buffer := s.buffer[s.got := s.dat])) else None
    case DropReq(acked) => Some(s.(t := if acked then AwaitAckLow else Returned, req := false))
    case AwaitAckLow =>
      if s.ack then None
      else
        var n := s.got + 1;
        Some(s.(t := if n >= c.count then Returned else RaiseReq, got := n))
    case Returned => None
    case MovedOn => None
  }

  function TargetGiveUp(s: State): Option<State> {
    match s.t
    case AwaitAckHigh => if s.ack then None else Some(s.(t := GetData(false)))
    case AwaitAckLow => if s.ack then Some(s.(t := Returned)) else None
    case _ => None
  }

  function SeesPhase(c: Config, s: State): bool {
    if c.live then s.inPhase else s.sample
  }

  function InitiatorStep(c: Config, s: State): Option<State> {
    match s.i
    case PutData => if s.sent < |c.data| then Some(s.(i := AwaitReqHigh, dat := c.data[s.sent])) else None
    case AwaitReqHigh => if s.req then Some(s.(i := CheckPhase, sample := s.inPhase)) else None
    case CheckPhase => Some(s.(i := if SeesPhase(c, s) then RaiseAck else Finished))
    case RaiseAck => Some(s.(i := AwaitReqLow, ack := true))
    case AwaitReqLow => if s.req then None else Some(s.(i := DropAck(true), sample := s.inPhase))
    case DropAck(seen) => Some(s.(i := Recheck(seen), ack := false))
    case Recheck(seen) =>
      if !seen || !SeesPhase(c, s) then Some(s.(i := Finished))
      else
        var n := s.sent + 1;
        Some(s.(i := if n >= |c.data| then Finished else PutData, sent := n))
    case Finished => None
  }

  function InitiatorGiveUp(s: State): Option<State> {
    match s.i
    case AwaitReqHigh => if s.req then None else Some(s.(i := Finished, sample := s.inPhase))
    case AwaitReqLow => if s.req then Some(s.(i := DropAck(false), sample := s.inPhase)) else None
    case _ => None
  }

  function Step(c: Config, s: State, a: Action): Option<State> {
    match a
    case Target => TargetStep(c, s)
    case TargetGivesUp => TargetGiveUp(s)
    case Initiator => InitiatorStep(c, s)
    case InitiatorGivesUp => InitiatorGiveUp(s)
    case MoveOn => if s.t.Returned? then Some(s.(t := MovedOn, inPhase := false)) else None
    case Elsewhere(r) => if s.t.MovedOn? then Some(s.(req := r)) else None
    case Reuse(d) => if s.i.Finished? then Some(s.(dat := d)) else None
  }

  // The state after a schedule, None when one of its steps is not enabled.
  function Run(c: Config, s: State, schedule: seq<Action>): Option<State>
    decreases |schedule|
  {
    if schedule == [] then Some(s)
    else
      match Step(c, s, schedule[0])
      case None => None
      case Some(next) => Run(c, next, schedule[1..])
  }

  predicate NoGiveUp(schedule: seq<Action>) {
    forall k :: 0 <= k < |schedule| ==> !schedule[k].TargetGivesUp? && !schedule[k].InitiatorGivesUp?
  }

  // ---- What every step keeps, timeouts included ----

  predicate Lines(s: State) {
    && (!s.t.MovedOn? ==> s.req == (s.t.AwaitAckHigh? || s.t.GetData? || s.t.DropReq?))
    && s.ack == (s.i.AwaitReqLow? || s.i.DropAck?)
    && s.inPhase == !s.t.MovedOn?
    && (s.t.RaiseReq? ==> !s.ack)
    && (!s.t.MovedOn? ==> s.sample)
  }

  predicate InBounds(c: Config, s: State) {
    && s.sent <= |c.data| && s.got <= c.count && |s.buffer| == c.count
    && (!s.t.Returned? && !s.t.MovedOn? ==> s.got < c.count)
    && (!s.i.Finished? ==> s.sent < |c.data|)
  }

  predicate DataLines(c: Config, s: State)
    requires InBounds(c, s)
  {
    !s.i.PutData? && !s.i.Finished? ==> s.dat == c.data[s.sent]
  }

  predicate OfferingByte(i: InitiatorAt) {
    i.PutData? || i.AwaitReqHigh? || i.CheckPhase? || i.RaiseAck? || i.AwaitReqLow? || i == DropAck(false)
      || i == Recheck(false) || i.Finished?
  }

  predicate Together(c: Config, s: State) {
    && (s.t.RaiseReq? ==>
          || (s.got == s.sent && (s.i.PutData? || s.i.AwaitReqHigh? || s.i.Finished?))
          || (s.got == s.sent + 1 && (s.i.Recheck? || s.i.Finished?)))
    && (s.t.AwaitAckHigh? || s.t == GetData(false) || s.t == DropReq(false) ==>
          || (s.got == s.sent && OfferingByte(s.i))
          || (s.got == s.sent + 1 && (s.i.Recheck? || s.i.Finished?)))
    && (s.t == GetData(true) || s.t == DropReq(true) ==>
          s.got == s.sent && (s.i.AwaitReqLow? || s.i == DropAck(false) || s.i == Recheck(false) || s.i.Finished?))
    && (s.t.AwaitAckLow? ==>
          || (s.got == s.sent && (s.i.AwaitReqLow? || s.i.DropAck? || s.i.Recheck? || s.i.Finished?))
          || (s.sent == s.got + 1 && (s.i.PutData? || s.i.AwaitReqHigh? || s.i.Finished?)))
    && (s.t.Returned? || s.t.MovedOn? ==>
          && s.got <= s.sent + 1 && s.sent <= s.got + 1
          && (s.sent == s.got + 1 ==>
                s.i.PutData? || s.i.AwaitReqHigh? || s.i.Finished? || (s.i.CheckPhase? && !SeesPhase(c, s)))
          && (s.got == s.sent + 1 ==> s.i.Recheck? || s.i.Finished?))
  }

  // Whatever both sides are going to count is already in the buffer.
  predicate InHand(c: Config, s: State)
    requires InBounds(c, s)
  {
    && (s.t == DropReq(true) || s.t.AwaitAckLow? ==>
          !s.i.Finished? || s.sent == s.got + 1 ==> s.got < |c.data| && s.buffer[s.got] == c.data[s.got])
    && (s.got == s.sent + 1 && !s.i.Finished? ==> s.buffer[s.sent] == c.data[s.sent])
  }

  function Both(s: State): nat {
    if s.got < s.sent then s.got else s.sent
  }

  predicate Counted(c: Config, s: State)
    requires InBounds(c, s)
  {
    s.buffer[..Both(s)] == c.data[..Both(s)]
  }

  predicate Inv(c: Config, s: State) {
    Lines(s) && InBounds(c, s) && DataLines(c, s) && Together(c, s) && InHand(c, s) && Counted(c, s)
  }

  lemma StartInv(c: Config, buffer: seq<Byte>)
    requires |buffer| == c.count
    ensures Inv(c, Start(c, buffer))
  {
  }

  lemma TargetKeepsLines(c: Config, s: State)
    requires Inv(c, s) && TargetStep(c, s).Some?
    ensures Lines(TargetStep(c, s).value) && InBounds(c, TargetStep(c, s).value)
    ensures DataLines(c, TargetStep(c, s).value) && Together(c, TargetStep(c, s).value)
  {
  }

  lemma TargetKeepsBytes(c: Config, s: State)
    requires Inv(c, s) && TargetStep(c, s).Some? && InBounds(c, TargetStep(c, s).value)
    ensures InHand(c, TargetStep(c, s).value) && Counted(c, TargetStep(c, s).value)
  {
  }

  lemma TargetGiveUpKeepsInv(c: Config, s: State)
    requires Inv(c, s) && TargetGiveUp(s).Some?
    ensures Inv(c, TargetGiveUp(s).value)
  {
  }

  lemma InitiatorKeepsLines(c: Config, s: State)
    requires Inv(c, s) && InitiatorStep(c, s).Some?
    ensures Lines(InitiatorStep(c, s).value) && InBounds(c, InitiatorStep(c, s).value)
    ensures DataLines(c, InitiatorStep(c, s).value)
  {
    hide InHand;
    hide Counted;
    InitiatorKeepsDataLines(c, s);
    hide DataLines;
  }

  lemma InitiatorKeepsDataLines(c: Config, s: State)
    requires Lines(s) && InBounds(c, s) && DataLines(c, s) && Together(c, s) && InitiatorStep(c, s).Some?
    ensures InBounds(c, InitiatorStep(c, s).value) && DataLines(c, InitiatorStep(c, s).value)
  {
  }

  lemma InitiatorKeepsTogether(c: Config, s: State)
    requires Lines(s) && InBounds(c, s) && DataLines(c, s) && Together(c, s) && InitiatorStep(c, s).Some?
    ensures Together(c, InitiatorStep(c, s).value)
  {
  }

  lemma InitiatorKeepsBytes(c: Config, s: State)
    requires Inv(c, s) && InitiatorStep(c, s).Some? && InBounds(c, InitiatorStep(c, s).value)
    ensures InHand(c, InitiatorStep(c, s).value)
  {
  }

  lemma InitiatorCounts(c: Config, s: State)
    requires Inv(c, s) && InitiatorStep(c, s).Some?
    ensures var next := InitiatorStep(c, s).value;
            && next.buffer == s.buffer && next.got == s.got <= s.sent + 1
            && (next.sent == s.sent || next.sent == s.sent + 1)
            && (s.got == s.sent + 1 && next.sent == s.sent + 1 ==> s.buffer[s.sent] == c.data[s.sent])
  {
    hide Counted;
    hide DataLines;
  }

  lemma InitiatorKeepsCounted(c: Config, s: State)
    requires Inv(c, s) && InitiatorStep(c, s).Some? && InBounds(c, InitiatorStep(c, s).value)
    ensures Counted(c, InitiatorStep(c, s).value)
  {
    InitiatorCounts(c, s);
    hide InitiatorStep;
    hide Lines;
    hide DataLines;
    hide Together;
    hide InHand;
    var next := InitiatorStep(c, s).value;
    if next.sent == s.sent + 1 && s.got == s.sent + 1 {
      PrefixGrows(s.buffer, c.data, s.sent);
    }
  }

  lemma PrefixGrows(a: seq<Byte>, b: seq<Byte>, n: nat)
    requires n < |a| && n < |b| && a[..n] == b[..n] && a[n] == b[n]
    ensures a[..n + 1] == b[..n + 1]
  {
    assert a[..n + 1] == a[..n] + [a[n]] && b[..n + 1] == b[..n] + [b[n]];
  }

  lemma InitiatorGiveUpKeepsInv(c: Config, s: State)
    requires Inv(c, s) && InitiatorGiveUp(s).Some?
    ensures Inv(c, InitiatorGiveUp(s).value)
  {
  }

  lemma StepKeepsInv(c: Config, s: State, a: Action)
    requires Inv(c, s) && Step(c, s, a).Some?
    ensures Inv(c, Step(c, s, a).value)
  {
    match a
    case Target =>
      TargetKeepsLines(c, s);
      TargetKeepsBytes(c, s);
    case TargetGivesUp => TargetGiveUpKeepsInv(c, s);
    case Initiator =>
      InitiatorKeepsLines(c, s);
      InitiatorKeepsTogether(c, s);
      InitiatorKeepsBytes(c, s);
      InitiatorKeepsCounted(c, s);
    case InitiatorGivesUp => InitiatorGiveUpKeepsInv(c, s);
    case MoveOn =>
    case Elsewhere(_) =>
    case Reuse(_) =>
  }

  // In every interleaving, with waits given up anywhere: every byte both sides counted arrived unchanged,
  // and the two returned counts differ by at most one.
  lemma {:induction false} CountedBytesAreSentBytes(c: Config, s: State, schedule: seq<Action>)
    requires Inv(c, s) && Run(c, s, schedule).Some?
    ensures Inv(c, Run(c, s, schedule).value)
    ensures var end := Run(c, s, schedule).value;
            && end.got <= |end.buffer| && end.sent <= |c.data|
            && (forall k :: 0 <= k < end.got && k < end.sent ==> end.buffer[k] == c.data[k])
            && end.got <= end.sent + 1 && end.sent <= end.got + 1
    decreases |schedule|
  {
    if schedule != [] {
      StepKeepsInv(c, s, schedule[0]);
      CountedBytesAreSentBytes(c, Step(c, s, schedule[0]).value, schedule[1..]);
    } else {
      forall k | 0 <= k < s.got && k < s.sent
        ensures s.buffer[k] == c.data[k]
      {
        assert s.buffer[..Both(s)][k] == c.data[..Both(s)][k];
      }
    }
  }

  // ---- What the target may conclude from its count ----

  // The target counts no byte that the initiator does not have.
  predicate Offered(c: Config, s: State) {
    && s.got <= |c.data|
    && (s.t == GetData(true) || s.t == DropReq(true) || s.t.AwaitAckLow? ==> s.got < |c.data|)
  }

  lemma StepKeepsOffered(c: Config, s: State, a: Action)
    requires Inv(c, s) && Offered(c, s) && Step(c, s, a).Some?
    ensures Offered(c, Step(c, s, a).value)
  {
  }

  function GiveUps(schedule: seq<Action>): nat {
    if schedule == [] then 0
    else (if schedule[0].TargetGivesUp? || schedule[0].InitiatorGivesUp? then 1 else 0) + GiveUps(schedule[1..])
  }

  lemma {:induction false} RunKeepsOffered(c: Config, s: State, schedule: seq<Action>)
    requires Inv(c, s) && Offered(c, s) && Run(c, s, schedule).Some?
    ensures Inv(c, Run(c, s, schedule).value) && Offered(c, Run(c, s, schedule).value)
    decreases |schedule|
  {
    if schedule != [] {
      StepKeepsInv(c, s, schedule[0]);
      StepKeepsOffered(c, s, schedule[0]);
      RunKeepsOffered(c, Step(c, s, schedule[0]).value, schedule[1..]);
    }
  }

  // As long as nobody has given up a wait, the initiator holds its byte on the lines until the target has read it.
  predicate Steady(c: Config, s: State)
    requires InBounds(c, s)
  {
    && s.t != GetData(false) && s.t != DropReq(false) && s.i != DropAck(false) && s.i != Recheck(false)
    && (s.t == GetData(true) ==> s.got == s.sent && s.i.AwaitReqLow?)
    && (s.t == DropReq(true) || s.t.AwaitAckLow? ==> s.got < |c.data| && s.buffer[s.got] == c.data[s.got])
    && (s.t.Returned? || s.t.MovedOn? ==> s.got == c.count)
    && s.got <= |c.data| && s.buffer[..s.got] == c.data[..s.got]
  }

  lemma StepKeepsSteady(c: Config, s: State, a: Action)
    requires Inv(c, s) && Steady(c, s) && Step(c, s, a).Some? && !a.TargetGivesUp? && !a.InitiatorGivesUp?
    requires InBounds(c, Step(c, s, a).value)
    ensures Steady(c, Step(c, s, a).value)
  {
    if a.Target? && s.t.AwaitAckLow? && !s.ack {
      assert s.buffer[..s.got + 1] == s.buffer[..s.got] + [s.buffer[s.got]];
      assert c.data[..s.got + 1] == c.data[..s.got] + [c.data[s.got]];
    }
  }

  lemma {:induction false} NoGiveUpStaysSteady(c: Config, s: State, schedule: seq<Action>)
    requires Inv(c, s) && Steady(c, s) && Run(c, s, schedule).Some? && GiveUps(schedule) == 0
    ensures Inv(c, Run(c, s, schedule).value) && Steady(c, Run(c, s, schedule).value)
    decreases |schedule|
  {
    if schedule != [] {
      StepKeepsInv(c, s, schedule[0]);
      StepKeepsSteady(c, s, schedule[0]);
      NoGiveUpStaysSteady(c, Step(c, s, schedule[0]).value, schedule[1..]);
    }
  }

  // Whenever the target's last call has returned, the handshakes have had the outcome that the target's side of the bus
  // assumes, for every interleaving and all waits given up: with a wait given up only the last byte may be wrong.
  lemma RunHasReceiveOutcome(c: Config, buffer: seq<Byte>, schedule: seq<Action>)
    requires |buffer| == c.count && Run(c, Start(c, buffer), schedule).Some?
    requires var end := Run(c, Start(c, buffer), schedule).value; end.t.Returned? || end.t.MovedOn?
    ensures var end := Run(c, Start(c, buffer), schedule).value;
            end.got <= |end.buffer| && ReceiveOutcome(c.data, c.count, end.buffer[..end.got], GiveUps(schedule))
  {
    var s := Start(c, buffer);
    StartInv(c, buffer);
    RunKeepsOffered(c, s, schedule);
    CountedBytesAreSentBytes(c, s, schedule);
    if GiveUps(schedule) == 0 {
      NoGiveUpStaysSteady(c, s, schedule);
    } else {
      var end := Run(c, s, schedule).value;
      var data := end.buffer[..end.got];
      if data != [] {
        assert data[..|data| - 1] <= c.data;
      }
    }
  }

  // ---- Every run ends ----

  function TargetRank(c: Config, s: State): nat
    requires s.got <= c.count
  {
    6 * (c.count - s.got) +
    match s.t
    case RaiseReq => 6
    case AwaitAckHigh => 5
    case GetData(_) => 4
    case DropReq(_) => 3
    case AwaitAckLow => 2
    case Returned => 1
    case MovedOn => 0
  }

  function InitiatorRank(c: Config, s: State): nat
    requires s.sent <= |c.data|
  {
    7 * (|c.data| - s.sent) +
    match s.i
    case PutData => 7
    case AwaitReqHigh => 6
    case CheckPhase => 5
    case RaiseAck => 4
    case AwaitReqLow => 3
    case DropAck(_) => 2
    case Recheck(_) => 1
    case Finished => 0
  }

  function Rank(c: Config, s: State): nat
    requires InBounds(c, s)
  {
    TargetRank(c, s) + InitiatorRank(c, s)
  }

  lemma TargetLowersRank(c: Config, s: State, next: State)
    requires InBounds(c, s) && InBounds(c, next)
    requires TargetStep(c, s) == Some(next) || TargetGiveUp(s) == Some(next)
    ensures TargetRank(c, next) < TargetRank(c, s)
    ensures InitiatorRank(c, next) == InitiatorRank(c, s)
  {
  }

  lemma InitiatorLowersRank(c: Config, s: State, next: State)
    requires InBounds(c, s) && InBounds(c, next)
    requires InitiatorStep(c, s) == Some(next) || InitiatorGiveUp(s) == Some(next)
    ensures InitiatorRank(c, next) < InitiatorRank(c, s)
    ensures TargetRank(c, next) == TargetRank(c, s)
  {
    assert next.t == s.t && next.got == s.got;
    hide InBounds;
  }

  lemma StepLowersRank(c: Config, s: State, a: Action)
    requires InBounds(c, s) && Step(c, s, a).Some? && InBounds(c, Step(c, s, a).value)
    ensures if a.Elsewhere? || a.Reuse? then Rank(c, Step(c, s, a).value) == Rank(c, s)
            else Rank(c, Step(c, s, a).value) < Rank(c, s)
  {
    var next := Step(c, s, a).value;
    match a
    case Target => TargetLowersRank(c, s, next);
    case TargetGivesUp => TargetLowersRank(c, s, next);
    case Initiator => InitiatorLowersRank(c, s, next);
    case InitiatorGivesUp => InitiatorLowersRank(c, s, next);
    case MoveOn =>
    case Elsewhere(_) =>
    case Reuse(_) =>
  }

  // The steps of a schedule that belong to the two handshake calls.
  function HandshakeSteps(schedule: seq<Action>): nat {
    if schedule == [] then 0
    else (if schedule[0].Elsewhere? || schedule[0].Reuse? then 0 else 1) + HandshakeSteps(schedule[1..])
  }

  // No schedule can keep the two calls going: their steps are bounded by the bytes to move.
  lemma {:induction false} EveryRunEnds(c: Config, s: State, schedule: seq<Action>)
    requires Inv(c, s) && Run(c, s, schedule).Some?
    ensures HandshakeSteps(schedule) <= Rank(c, s)
    decreases |schedule|
  {
    if schedule != [] {
      StepKeepsInv(c, s, schedule[0]);
      StepLowersRank(c, s, schedule[0]);
      EveryRunEnds(c, Step(c, s, schedule[0]).value, schedule[1..]);
    }
  }

  // ---- Runs in which no wait is given up and both sides agree on the length ----

  predicate Smooth(c: Config, s: State)
    requires InBounds(c, s) && c.count == |c.data|
  {
    && s.t != GetData(false) && s.t != DropReq(false) && s.i != DropAck(false) && s.i != Recheck(false)
    && (s.t.Returned? || s.t.MovedOn? ==>
          s.got == c.count && s.buffer == c.data && (s.i.Recheck? || s.i.Finished?))
    && (s.i.CheckPhase? || s.i.RaiseAck? ==> s.t.AwaitAckHigh? && s.sample)
    && (s.i.Recheck? ==> s.sample)
    && (s.t == DropReq(true) || s.t.AwaitAckLow? ==> s.buffer[s.got] == c.data[s.got])
    && s.buffer[..s.got] == c.data[..s.got]
    && (s.i.Finished? ==>
          || (s.sent == |c.data| && (s.t.AwaitAckLow? || s.t.Returned? || s.t.MovedOn?))
          || (c.live && s.t.MovedOn? && s.sent + 1 == |c.data|))
  }

  lemma TargetKeepsSmooth(c: Config, s: State)
    requires Inv(c, s) && c.count == |c.data| && Smooth(c, s) && TargetStep(c, s).Some?
    requires InBounds(c, TargetStep(c, s).value)
    ensures Smooth(c, TargetStep(c, s).value)
  {
    if s.t.AwaitAckLow? {
      assert s.buffer[..s.got + 1] == s.buffer[..s.got] + [s.buffer[s.got]];
      assert c.data[..s.got + 1] == c.data[..s.got] + [c.data[s.got]];
    }
  }

  lemma InitiatorKeepsSmooth(c: Config, s: State)
    requires Inv(c, s) && c.count == |c.data| && Smooth(c, s) && InitiatorStep(c, s).Some?
    requires InBounds(c, InitiatorStep(c, s).value)
    ensures Smooth(c, InitiatorStep(c, s).value)
  {
  }

  lemma {:induction false} RunKeepsSmooth(c: Config, s: State, schedule: seq<Action>)
    requires Inv(c, s) && c.count == |c.data| && Smooth(c, s)
    requires NoGiveUp(schedule) && Run(c, s, schedule).Some?
    ensures Inv(c, Run(c, s, schedule).value) && Smooth(c, Run(c, s, schedule).value)
    decreases |schedule|
  {
    if schedule != [] {
      var a := schedule[0];
      StepKeepsInv(c, s, a);
      match a {
        case Target => TargetKeepsSmooth(c, s);
        case Initiator => InitiatorKeepsSmooth(c, s);
        case MoveOn =>
        case Elsewhere(_) =>
        case Reuse(_) =>
      }
      RunKeepsSmooth(c, Step(c, s, a).value, schedule[1..]);
    }
  }

  predicate Stuck(c: Config, s: State) {
    TargetStep(c, s).None? && InitiatorStep(c, s).None?
  }

  predicate BothReturned(s: State) {
    (s.t.Returned? || s.t.MovedOn?) && s.i.Finished?
  }

  lemma SmoothNeverDeadlocks(c: Config, s: State)
    requires Inv(c, s) && c.count == |c.data| && Smooth(c, s)
    ensures Stuck(c, s) <==> BothReturned(s)
  {
  }

  // Without timeouts no reachable state deadlocks, and when both calls have returned the target's buffer
  // is the initiator's data and the target counted all of it. The initiator's own count is exact, except
  // that on the shared word it may be one short once the target has changed the phase.
  lemma NoTimeoutDelivers(c: Config, buffer: seq<Byte>, schedule: seq<Action>)
    requires c.count == |c.data| == |buffer|
    requires NoGiveUp(schedule) && Run(c, Start(c, buffer), schedule).Some?
    ensures var end := Run(c, Start(c, buffer), schedule).value;
            && (Stuck(c, end) <==> BothReturned(end))
            && (BothReturned(end) ==>
                  && end.got == c.count && end.buffer == c.data
                  && (end.sent == |c.data| || end.sent + 1 == |c.data|)
                  && (!c.live || !end.t.MovedOn? ==> end.sent == |c.data|))
  {
    StartInv(c, buffer);
    RunKeepsSmooth(c, Start(c, buffer), schedule);
    SmoothNeverDeadlocks(c, Run(c, Start(c, buffer), schedule).value);
  }

  // ---- The count that is one short ----

  lemma {:induction false} RunConcat(c: Config, s: State, a: seq<Action>, b: seq<Action>)
    requires Run(c, s, a).Some?
    ensures Run(c, s, a + b) == Run(c, Run(c, s, a).value, b)
    decreases |a|
  {
    if a == [] {
      assert a + b == b;
    } else {
      assert (a + b)[1..] == a[1..] + b;
      RunConcat(c, Step(c, s, a[0]).value, a[1..], b);
    }
  }

  lemma RunFive(c: Config, s0: State, s1: State, s2: State, s3: State, s4: State, s5: State, schedule: seq<Action>)
    requires |schedule| == 5
    requires Step(c, s0, schedule[0]) == Some(s1) && Step(c, s1, schedule[1]) == Some(s2)
    requires Step(c, s2, schedule[2]) == Some(s3) && Step(c, s3, schedule[3]) == Some(s4)
    requires Step(c, s4, schedule[4]) == Some(s5)
    ensures Run(c, s0, schedule) == Some(s5)
  {
    assert schedule[4..][1..] == [];
    assert Run(c, s4, schedule[4..]) == Some(s5);
    assert schedule[3..][1..] == schedule[4..];
    assert Run(c, s3, schedule[3..]) == Some(s5);
    assert schedule[2..][1..] == schedule[3..];
    assert Run(c, s2, schedule[2..]) == Some(s5);
    assert schedule[1..][1..] == schedule[2..];
    assert Run(c, s1, schedule[1..]) == Some(s5);
  }

  // The state in which byte number k comes next, and no step of it has been taken.
  function Ready(c: Config, k: nat, buffer: seq<Byte>, d: Byte): State {
    State(RaiseReq, k, buffer, PutData, k, true, false, false, d, true)
  }

  // The target has read the byte, REQ is released and ACK is about to be.
  function Read(c: Config, k: nat, buffer: seq<Byte>): State
    requires k < |c.data|
  {
    State(AwaitAckLow, k, buffer, DropAck(true), k, true, false, true, c.data[k], true)
  }

  const OFFER: seq<Action> := [Initiator, Target, Initiator, Initiator, Initiator]
  const TAKE: seq<Action> := [Target, Target, Target, Initiator, Initiator]

  lemma OneByte(c: Config, k: nat, buffer: seq<Byte>, d: Byte)
    requires k < |c.data| && k < c.count == |buffer|
    ensures Run(c, Ready(c, k, buffer, d), OFFER + TAKE) ==
            Some(Read(c, k, buffer[k := c.data[k]]).(i := Recheck(true), ack := false))
  {
    var s0, e := Ready(c, k, buffer, d), c.data[k];
    var put := s0.(i := AwaitReqHigh, dat := e);
    var asked := put.(t := AwaitAckHigh, req := true);
    var offered := asked.(i := AwaitReqLow, ack := true);
    RunFive(c, s0, put, asked, asked.(i := CheckPhase), asked.(i := RaiseAck), offered, OFFER);
    var taken := offered.(t := DropReq(true), buffer := buffer[k := e]);
    var last := Read(c, k, buffer[k := e]);
    RunFive(c, offered, offered.(t := GetData(true)), taken, last.(i := AwaitReqLow), last,
            last.(i := Recheck(true), ack := false), TAKE);
    RunConcat(c, s0, OFFER, TAKE);
  }

  lemma {:induction false} GiveUpsAdd(a: seq<Action>, b: seq<Action>)
    ensures GiveUps(a + b) == GiveUps(a) + GiveUps(b)
    decreases |a|
  {
    if a == [] {
      assert a + b == b;
    } else {
      assert (a + b)[1..] == a[1..] + b;
      GiveUpsAdd(a[1..], b);
    }
  }

  lemma {:induction false} NoGiveUps(schedule: seq<Action>)
    requires NoGiveUp(schedule)
    ensures GiveUps(schedule) == 0
    decreases |schedule|
  {
    if schedule != [] {
      NoGiveUps(schedule[1..]);
    }
  }

  // The wrong byte is possible: the initiator gives up its wait for REQ and reuses the data lines between the target's
  // look at ACK and its look at the data.
  function Waiting(c: Config, k: nat, buffer: seq<Byte>): State
    requires k < |c.data|
  {
    State(AwaitAckHigh, k, buffer, AwaitReqLow, k, true, true, true, c.data[k], true)
  }

  function Left(k: nat, buffer: seq<Byte>, y: Byte): State {
    State(GetData(true), k, buffer, Finished, k, true, true, false, y, true)
  }

  function Reusing(y: Byte): seq<Action> {
    [Target, InitiatorGivesUp, Initiator, Initiator, Reuse(y)]
  }

  // The target counts the byte.
  const READ: seq<Action> := [Target, Target, Target]
  // It asks for another one in vain.
  const ASK: seq<Action> := [Target, TargetGivesUp, Target, Target]

  lemma OfferByte(c: Config, k: nat, buffer: seq<Byte>, d: Byte)
    requires k < |c.data|
    ensures Run(c, Ready(c, k, buffer, d), OFFER) == Some(Waiting(c, k, buffer))
  {
    var s0 := Ready(c, k, buffer, d);
    var put := s0.(i := AwaitReqHigh, dat := c.data[k]);
    var asked := put.(t := AwaitAckHigh, req := true);
    RunFive(c, s0, put, asked, asked.(i := CheckPhase), asked.(i := RaiseAck), Waiting(c, k, buffer), OFFER);
  }

  lemma ReuseLines(c: Config, k: nat, buffer: seq<Byte>, y: Byte)
    requires k < |c.data|
    ensures Run(c, Waiting(c, k, buffer), Reusing(y)) == Some(Left(k, buffer, y))
  {
    var waiting := Waiting(c, k, buffer);
    var seen := waiting.(t := GetData(true));
    var gone := Left(k, buffer, c.data[k]);
    RunFive(c, waiting, seen, seen.(i := DropAck(false)), gone.(i := Recheck(false)), gone, Left(k, buffer, y),
            Reusing(y));
  }

  // The byte on the lines has been counted.
  function Misread(c: Config, k: nat, buffer: seq<Byte>, y: Byte): State
    requires k < |buffer|
  {
    State(if k + 1 >= c.count then Returned else RaiseReq, k + 1, buffer[k := y], Finished, k, true, false, false, y,
          true)
  }

  lemma ReadLines(c: Config, k: nat, buffer: seq<Byte>, y: Byte)
    requires k < c.count == |buffer|
    ensures Run(c, Left(k, buffer, y), READ) == Some(Misread(c, k, buffer, y))
  {
    var left, end := Left(k, buffer, y), Misread(c, k, buffer, y);
    var read := left.(t := DropReq(true), buffer := buffer[k := y]);
    var low := read.(t := AwaitAckLow, req := false);
    assert READ[1..] == [Target, Target] && [Target, Target][1..] == [Target] && [Target][1..] == [];
    assert Step(c, left, Target) == Some(read) && Step(c, read, Target) == Some(low);
    assert Run(c, low, [Target]) == Some(end);
    assert Run(c, read, [Target, Target]) == Some(end);
  }

  lemma AskInVain(c: Config, k: nat, buffer: seq<Byte>, y: Byte)
    requires k + 1 < c.count == |buffer|
    ensures Run(c, Misread(c, k, buffer, y), ASK) ==
            Some(Misread(c, k, buffer, y).(t := Returned, buffer := buffer[k := y][k + 1 := y]))
  {
    var s := Misread(c, k, buffer, y);
    var asking := s.(t := AwaitAckHigh, req := true);
    var tired := asking.(t := GetData(false));
    var read := tired.(t := DropReq(false), buffer := s.buffer[k + 1 := y]);
    var end := read.(t := Returned, req := false);
    assert ASK[1..] == [TargetGivesUp, Target, Target] && [TargetGivesUp, Target, Target][1..] == [Target, Target];
    assert [Target, Target][1..] == [Target] && [Target][1..] == [];
    assert Step(c, s, Target) == Some(asking) && Step(c, asking, TargetGivesUp) == Some(tired);
    assert Step(c, tired, Target) == Some(read);
    assert Run(c, read, [Target]) == Some(end);
    assert Run(c, tired, [Target, Target]) == Some(end);
    assert Run(c, asking, [TargetGivesUp, Target, Target]) == Some(end);
  }

  lemma OneGiveUp(y: Byte)
    ensures GiveUps(OFFER + (Reusing(y) + READ)) == 1
  {
    var first, second := [Target, InitiatorGivesUp], [Initiator, Initiator, Reuse(y)];
    assert Reusing(y) == first + second;
    GiveUpsAdd(OFFER, Reusing(y) + READ);
    GiveUpsAdd(Reusing(y), READ);
    GiveUpsAdd(first, second);
    NoGiveUps(OFFER);
    NoGiveUps(READ);
    NoGiveUps(second);
    assert first[1..] == [InitiatorGivesUp] && GiveUps([InitiatorGivesUp]) == 1;
  }

  lemma AskGivesUp()
    ensures GiveUps(ASK) == 1
  {
    var rest := [TargetGivesUp, Target, Target];
    NoGiveUps([Target, Target]);
    assert ASK[1..] == rest && rest[1..] == [Target, Target];
    assert GiveUps(rest) == 1;
  }

  const NEXT: seq<Action> := [Initiator, Target]

  lemma NextByte(c: Config, k: nat, buffer: seq<Byte>)
    requires k + 1 < |c.data| && k + 1 < c.count == |buffer|
    ensures Run(c, Read(c, k, buffer).(i := Recheck(true), ack := false), NEXT) ==
            Some(Ready(c, k + 1, buffer, c.data[k]))
  {
    var s := Read(c, k, buffer).(i := Recheck(true), ack := false);
    assert NEXT[1..] == [Target] && [Target][1..] == [];
    assert Step(c, s, Initiator) == Some(s.(i := PutData, sent := k + 1));
    assert Run(c, Ready(c, k + 1, buffer, c.data[k]), []) == Some(Ready(c, k + 1, buffer, c.data[k]));
    assert Run(c, s.(i := PutData, sent := k + 1), [Target]) == Some(Ready(c, k + 1, buffer, c.data[k]));
  }

  lemma MisreadByte(c: Config, k: nat, buffer: seq<Byte>, d: Byte, y: Byte)
    requires k < |c.data| && k < c.count == |buffer|
    ensures Run(c, Ready(c, k, buffer, d), OFFER + (Reusing(y) + READ)) == Some(Misread(c, k, buffer, y))
  {
    OfferByte(c, k, buffer, d);
    ReuseLines(c, k, buffer, y);
    ReadLines(c, k, buffer, y);
    hide *;
    RunConcat(c, Waiting(c, k, buffer), Reusing(y), READ);
    RunConcat(c, Ready(c, k, buffer, d), OFFER, Reusing(y) + READ);
  }

  // A call that has counted n bytes and then returned, with the byte y as the last one and the bytes in front as they
  // were sent.
  ghost predicate EndsWith(c: Config, s: Option<State>, n: nat, y: Byte) {
    && s.Some? && BothReturned(s.value) && s.value.got == n
    && 0 < n <= |s.value.buffer| && n <= |c.data|
    && s.value.buffer[..n] == c.data[..n - 1] + [y]
  }

  lemma MisreadLast(c: Config, k: nat, buffer: seq<Byte>, d: Byte, y: Byte) returns (schedule: seq<Action>)
    requires k < |c.data| && k < c.count == |buffer| && buffer[..k] == c.data[..k]
    ensures GiveUps(schedule) == if k + 1 == c.count then 1 else 2
    ensures EndsWith(c, Run(c, Ready(c, k, buffer, d), schedule), k + 1, y)
  {
    var first := OFFER + (Reusing(y) + READ);
    MisreadByte(c, k, buffer, d, y);
    OneGiveUp(y);
    assert buffer[k := y][..k + 1] == buffer[..k] + [y];
    schedule := first;
    if k + 1 < c.count {
      AskInVain(c, k, buffer, y);
      AskGivesUp();
      assert buffer[k := y][k + 1 := y][..k + 1] == buffer[k := y][..k + 1];
      hide Run;
      hide GiveUps;
      GiveUpsAdd(first, ASK);
      RunConcat(c, Ready(c, k, buffer, d), first, ASK);
      schedule := first + ASK;
    }
  }

  lemma {:induction false} MisreadFrom(c: Config, k: nat, n: nat, buffer: seq<Byte>, d: Byte, y: Byte)
    returns (schedule: seq<Action>)
    requires k < n <= |c.data| && n <= c.count == |buffer| && buffer[..k] == c.data[..k]
    ensures GiveUps(schedule) == if n == c.count then 1 else 2
    ensures EndsWith(c, Run(c, Ready(c, k, buffer, d), schedule), n, y)
    decreases n - k
  {
    hide Run;
    hide GiveUps;
    if k + 1 == n {
      schedule := MisreadLast(c, k, buffer, d, y);
    } else {
      var s, after, e := Ready(c, k, buffer, d), buffer[k := c.data[k]], c.data[k];
      assert after[..k + 1] == buffer[..k] + [e] && c.data[..k + 1] == c.data[..k] + [e];
      var more := MisreadFrom(c, k + 1, n, after, e, y);
      OneByte(c, k, buffer, d);
      NextByte(c, k, after);
      var rest := NEXT + more;
      RunConcat(c, Read(c, k, after).(i := Recheck(true), ack := false), NEXT, more);
      RunConcat(c, s, OFFER + TAKE, rest);
      schedule := OFFER + TAKE + rest;
      NoGiveUpConcat(OFFER, TAKE);
      NoGiveUps(OFFER + TAKE);
      NoGiveUps(NEXT);
      GiveUpsAdd(NEXT, more);
      GiveUpsAdd(OFFER + TAKE, rest);
    }
  }

  // Any byte the target counts can be its last one and be any other byte than the one that was sent: one wait given up
  // is enough for the last byte it asks for, and a second one ends the call behind an earlier byte. So nothing more can
  // be promised about the last byte than RunHasReceiveOutcome does.
  lemma LastByteCanBeWrong(c: Config, buffer: seq<Byte>, n: nat, y: Byte)
    requires 0 < n <= |c.data| && n <= c.count == |buffer|
    ensures exists schedule ::
              && GiveUps(schedule) == (if n == c.count then 1 else 2)
              && EndsWith(c, Run(c, Start(c, buffer), schedule), n, y)
  {
    var schedule := MisreadFrom(c, 0, n, buffer, 0, y);
    assert Start(c, buffer) == Ready(c, 0, buffer, 0);
  }

  lemma NoGiveUpConcat(a: seq<Action>, b: seq<Action>)
    requires NoGiveUp(a) && NoGiveUp(b)
    ensures NoGiveUp(a + b)
  {
  }

  const RACE: seq<Action> := [Target, MoveOn, Initiator]

  lemma RaceEnds(c: Config, k: nat, buffer: seq<Byte>)
    requires k + 1 == |c.data| == c.count == |buffer| && c.live
    ensures var end := Run(c, Read(c, k, buffer).(i := Recheck(true), ack := false), RACE);
            end.Some? && BothReturned(end.value) && end.value.sent + 1 == |c.data|
  {
    var s := Read(c, k, buffer).(i := Recheck(true), ack := false);
    var back := s.(t := Returned, got := k + 1);
    var on := back.(t := MovedOn, inPhase := false);
    assert RACE[1..] == [MoveOn, Initiator] && [MoveOn, Initiator][1..] == [Initiator] && [Initiator][1..] == [];
    assert Step(c, s, Target) == Some(back) && Step(c, back, MoveOn) == Some(on);
    assert Run(c, on, [Initiator]) == Some(on.(i := Finished));
    assert Run(c, back, [MoveOn, Initiator]) == Some(on.(i := Finished));
  }

  lemma {:induction false} OneShortFrom(c: Config, k: nat, buffer: seq<Byte>, d: Byte) returns (schedule: seq<Action>)
    requires k < |c.data| == c.count == |buffer| && c.live
    ensures NoGiveUp(schedule)
    ensures var end := Run(c, Ready(c, k, buffer, d), schedule);
            end.Some? && BothReturned(end.value) && end.value.sent + 1 == |c.data|
    decreases |c.data| - k
  {
    var s, after := Ready(c, k, buffer, d), buffer[k := c.data[k]];
    OneByte(c, k, buffer, d);
    NoGiveUpConcat(OFFER, TAKE);
    var rest;
    if k + 1 == |c.data| {
      RaceEnds(c, k, after);
      rest := RACE;
    } else {
      NextByte(c, k, after);
      var more := OneShortFrom(c, k + 1, after, c.data[k]);
      RunConcat(c, Read(c, k, after).(i := Recheck(true), ack := false), NEXT, more);
      NoGiveUpConcat(NEXT, more);
      rest := NEXT + more;
    }
    RunConcat(c, s, OFFER + TAKE, rest);
    NoGiveUpConcat(OFFER + TAKE, rest);
    schedule := OFFER + TAKE + rest;
  }

  // Without timeouts and with equal lengths the initiator's count can come out one short exactly if it reads the shared
  // word and there is something to send.
  lemma OneShortIsPossible(c: Config, buffer: seq<Byte>)
    requires c.count == |c.data| == |buffer|
    ensures (exists schedule ::
               && NoGiveUp(schedule) && Run(c, Start(c, buffer), schedule).Some?
               && var end := Run(c, Start(c, buffer), schedule).value;
                  BothReturned(end) && end.sent != |c.data|)
            <==> c.live && c.data != []
  {
    if c.live && c.data != [] {
      var schedule := OneShortFrom(c, 0, buffer, 0);
      assert Start(c, buffer) == Ready(c, 0, buffer, 0);
    }
    forall schedule | NoGiveUp(schedule) && Run(c, Start(c, buffer), schedule).Some?
      ensures var end := Run(c, Start(c, buffer), schedule).value;
              BothReturned(end) && end.sent != |c.data| ==> c.live && c.data != []
    {
      NoTimeoutDelivers(c, buffer, schedule);
    }
  }

  // ---- A run, one step at a time ----

  // As long as the target has not returned it can take a step or give up its wait.
  function TargetMoves(c: Config, s: State): (a: Action)
    requires Inv(c, s) && !s.t.Returned? && !s.t.MovedOn?
    ensures Step(c, s, a).Some? && (a.Target? || a.TargetGivesUp?)
  {
    if TargetStep(c, s).Some? then Target else TargetGivesUp
  }

  predicate RunsTo(c: Config, buffer: seq<Byte>, schedule: seq<Action>, s: State, giveUps: nat) {
    Inv(c, s) && Run(c, Start(c, buffer), schedule) == Some(s) && giveUps == GiveUps(schedule)
  }

  function GiveUp(a: Action): nat {
    if a.TargetGivesUp? || a.InitiatorGivesUp? then 1 else 0
  }

  lemma OneStepMore(c: Config, buffer: seq<Byte>, schedule: seq<Action>, s: State, giveUps: nat, a: Action)
    requires RunsTo(c, buffer, schedule, s, giveUps) && Step(c, s, a).Some?
    ensures var next := Step(c, s, a).value;
            && RunsTo(c, buffer, schedule + [a], next, giveUps + GiveUp(a))
            && Rank(c, next) <= Rank(c, s) && (a.Elsewhere? || a.Reuse? || Rank(c, next) < Rank(c, s))
  {
    StepKeepsInv(c, s, a);
    StepLowersRank(c, s, a);
    hide Step;
    hide Inv;
    hide Rank;
    RunConcat(c, Start(c, buffer), schedule, [a]);
    GiveUpsAdd(schedule, [a]);
    assert [a][1..] == [];
  }

  // Both sides take steps and give up waits in any order until the target's call has returned. An initiator whose call
  // has finished may reuse the data lines before any of them.
  method Exchange(c: Config, buffer: seq<Byte>) returns (s: State, giveUps: nat, ghost schedule: seq<Action>)
    requires |buffer| == c.count
    ensures RunsTo(c, buffer, schedule, s, giveUps) && s.t.Returned?
  {
    hide Lines;
    hide DataLines;
    hide Together;
    hide InHand;
    hide Counted;
    s, giveUps, schedule := Start(c, buffer), 0, [];
    StartInv(c, buffer);
    while !s.t.Returned?
      invariant RunsTo(c, buffer, schedule, s, giveUps) && !s.t.MovedOn?
      decreases Rank(c, s)
    {
      var d: Byte, reuses: bool := *, *;
      if reuses && s.i.Finished? {
        OneStepMore(c, buffer, schedule, s, giveUps, Reuse(d));
        s, schedule := s.(dat := d), schedule + [Reuse(d)];
      }
      var a: Action := *;
      if a.MoveOn? || a.Elsewhere? || a.Reuse? || Step(c, s, a).None? {
        a := TargetMoves(c, s);
      }
      OneStepMore(c, buffer, schedule, s, giveUps, a);
      StaysInPhase(c, s, a);
      s, giveUps, schedule := Step(c, s, a).value, giveUps + GiveUp(a), schedule + [a];
    }
  }

  lemma StaysInPhase(c: Config, s: State, a: Action)
    requires !a.MoveOn? && !s.t.MovedOn? && Step(c, s, a).Some?
    ensures !Step(c, s, a).value.t.MovedOn?
  {
  }
}
