// The bus as the target's controller uses it between phase changes: the lines it drives, whole handshakes,
// and a record of what the initiator has been sent.
module TargetBuses {
  import opened Basics
  import opened SignalWord
  import opened HandshakeOutcomes
  import DataInHandshake
  import DataOutHandshake

  datatype Sent = Sent(phase: BusPhase, value: Byte)

  // The bytes of one phase, as the record shows them.
  function Tagged(p: BusPhase, bytes: seq<Byte>): (r: seq<Sent>)
    ensures |r| == |bytes| && forall i :: 0 <= i < |bytes| ==> r[i] == Sent(p, bytes[i])
  {
    if bytes == [] then [] else [Sent(p, bytes[0])] + Tagged(p, bytes[1..])
  }

  lemma TaggedConcat(p: BusPhase, a: seq<Byte>, b: seq<Byte>)
    ensures Tagged(p, a + b) == Tagged(p, a) + Tagged(p, b)
  {
  }

  // The lines that the target drives for a phase while the bus is busy.
  function PhaseLines(p: BusPhase): set<Line> {
    match p
    case CommandPhase => {CD}
    case DataInPhase => {IO}
    case DataOutPhase => {}
    case StatusPhase => {CD, IO}
    case MsgInPhase => {MSG, CD, IO}
    case MsgOutPhase => {MSG, CD}
    case _ => {}
  }

  const TYPE_LINES: set<Line> := {MSG, CD, IO}

  function LinesFor(lines: set<Line>, p: BusPhase): set<Line> {
    lines - TYPE_LINES + PhaseLines(p)
  }

  const BUS_FREE_LINES: set<Line> := {REQ, MSG, CD, IO, BSY}

  predicate IsTransferPhase(p: BusPhase) {
    p.CommandPhase? || p.DataInPhase? || p.DataOutPhase? || p.StatusPhase? || p.MsgInPhase? || p.MsgOutPhase?
  }

  // Driving the lines of a phase while the bus is busy and no selection is going on shows that phase.
  lemma PhaseLinesShowPhase(lines: set<Line>, p: BusPhase)
    requires BSY in lines && SEL !in lines && IsTransferPhase(p) && lines * TYPE_LINES == PhaseLines(p)
    ensures PhaseOfLines(lines) == p
  {
    assert MSG in lines <==> MSG in PhaseLines(p);
    assert CD in lines <==> CD in PhaseLines(p);
    assert IO in lines <==> IO in PhaseLines(p);
  }

  // The length of a command by its group; 0 stands for an unknown command.
  function CommandLength(opcode: Byte): (n: nat)
    ensures n in {0, 6, 10, 12, 16}
  {
    if opcode < 0x1f then 6
    else if 0x20 <= opcode < 0x7f then 10
    else if 0x80 <= opcode < 0xa0 then 16
    else if 0xa0 <= opcode < 0xc0 then 12
    else if opcode in {0xc0, 0xc1} then 10
    else 0
  }

  // What a host puts out in the COMMAND phase: a 0x1f in front of the opcode is dropped.
  function CommandStart(host: seq<Byte>): nat {
    if host != [] && host[0] == 0x1f then 1 else 0
  }

  // The bytes of a command, as they were taken from what the host puts out.
  predicate HeardCommand(host: seq<Byte>, bytes: seq<Byte>, rest: seq<Byte>) {
    var p := CommandStart(host);
    && p < |host|
    && var n := CommandLength(host[p]);
       if n == 0 then bytes == [host[p]] && rest == host[p + 1..]
       else p + n <= |host| && bytes == host[p..p + n] && rest == host[p + n..]
  }

  lemma CommandIsHeard(icd: seq<Byte>, bytes: seq<Byte>, rest: seq<Byte>)
    requires bytes != [] && |bytes| == CommandLength(bytes[0]) && (icd == [] || icd == [0x1f])
    requires icd == [] ==> bytes[0] != 0x1f
    ensures HeardCommand(icd + bytes + rest, bytes, rest)
  {
    var host := icd + bytes + rest;
    assert host[|icd|] == bytes[0];
    assert host[|icd|..|icd| + |bytes|] == bytes && host[|icd| + |bytes|..] == rest;
  }

  // What has been heard of the host so far, and what it still has to put out.
  predicate Hearing(host: seq<Byte>, heard: seq<Byte>, rest: seq<Byte>, faults: int) {
    Heard(heard, host, faults) && rest == host[|heard|..]
  }

  predicate IsRest(rest: seq<Byte>, host: seq<Byte>) {
    |rest| <= |host| && rest == host[|host| - |rest|..]
  }

  lemma HearingShows(host: seq<Byte>, heard: seq<Byte>, rest: seq<Byte>, faults: int)
    requires Hearing(host, heard, rest, faults)
    ensures IsRest(rest, host) && (faults == 0 ==> heard + rest == host)
  {
    if faults == 0 {
      HeardWithoutFaults(heard, host);
    }
  }

  lemma HearingBegins(host: seq<Byte>)
    ensures Hearing(host, [], host, 0)
  {
    NothingWrong([], host);
  }

  lemma HearingGoesOn(host: seq<Byte>, heard: seq<Byte>, value: Byte, rest: seq<Byte>, faults: int, more: int)
    requires Hearing(host, heard, rest, faults) && rest != [] && Heard([value], rest, more)
    ensures Hearing(host, heard + [value], rest[1..], faults + more)
  {
    HeardGrows(heard, [value], host, faults, more);
  }

  class Bus {
    var lines: set<Line>
    var toHost: seq<Sent>      // everything the initiator has received
    var fromHost: seq<Byte>    // everything the initiator is still going to send
    ghost var faults: nat      // waits given up by either side, and resets by the initiator

    constructor (host: seq<Byte>)
      ensures lines == {} && toHost == [] && fromHost == host && faults == 0
    {
      lines, toHost, fromHost, faults := {}, [], host, 0;
    }

    method SetLine(l: Line, state: bool)
      modifies this`lines
      ensures lines == if state then old(lines) + {l} else old(lines) - {l}
    {
      lines := if state then lines + {l} else lines - {l};
    }

    method SetBSY(state: bool)
      modifies this`lines
      ensures lines == if state then old(lines) + {BSY} else old(lines) - {BSY, MSG, CD, REQ, IO}
    {
      SetLine(BSY, state);
      if !state {
        SetLine(MSG, false);
        SetLine(CD, false);
        SetLine(REQ, false);
        SetLine(IO, false);
      }
    }

    // The lines of a transfer phase: SetMSG, SetCD and SetIO in a row.
    method ShowPhase(p: BusPhase)
      requires IsTransferPhase(p)
      modifies this`lines
      ensures lines == LinesFor(old(lines), p)
    {
      SetLine(MSG, p.MsgInPhase? || p.MsgOutPhase?);
      SetLine(CD, !p.DataInPhase? && !p.DataOutPhase?);
      SetLine(IO, p.DataInPhase? || p.StatusPhase? || p.MsgInPhase?);
      assert lines == LinesFor(old(lines), p);
    }

    // The lines of BUS FREE.
    method ShowBusFree()
      modifies this`lines
      ensures lines == old(lines) - BUS_FREE_LINES
    {
      SetLine(REQ, false);
      SetLine(MSG, false);
      SetLine(CD, false);
      SetLine(IO, false);
      SetBSY(false);
      assert lines == old(lines) - BUS_FREE_LINES;
    }

    // Bus::Reset
    method Reset()
      modifies this`lines
      ensures lines == {}
    {
      lines := {};
    }

    // Between two steps of the target the initiator may change its own lines. It does not start a
    // selection while the bus is busy. An asserted RST stays until the target has seen it.
    method InitiatorActs()
      modifies this`lines, this`faults
      ensures lines - {SEL, ATN, RST, ACK} == old(lines) - {SEL, ATN, RST, ACK}
      ensures BSY in old(lines) && SEL !in old(lines) ==> SEL !in lines
      ensures RST in old(lines) ==> RST in lines
      ensures faults >= old(faults) && (faults == old(faults) && RST !in old(lines) ==> RST !in lines)
    {
      var sel: bool, atn: bool, rst: bool := *, *, *;
      if !sel || BSY !in lines {
        SetLine(SEL, sel);
      }
      SetLine(ATN, atn);
      if rst {
        SetLine(RST, true);
        faults := faults + 1;
      }
    }

    // A handshake with an initiator that asks for any number of bytes. The bytes that arrive are the bytes of the
    // buffer, in order, at least those that the target has counted. An initiator that gives up a wait has its bytes
    // nevertheless, but does not count the last one.
    method TargetSendHandShake(buf: seq<Byte>) returns (sent: nat)
      modifies this`lines, this`toHost, this`faults
      ensures lines == old(lines) - {REQ} && faults >= old(faults)
      ensures exists arrived ::
                && SendOutcome(buf, sent, arrived, faults - old(faults))
                && toHost == old(toHost) + Tagged(PhaseOfLines(old(lines)), arrived)
    {
      var count: nat, live: bool := *, *;
      var c, empty := DataInHandshake.Config(buf, {}, count, live), seq(count, _ => 0);
      var end, giveUps;
      ghost var schedule;
      end, giveUps, schedule := DataInHandshake.Exchange(c, empty);
      DataInHandshake.RunHasSendOutcome(c, empty, schedule);
      sent := end.sent;
      toHost := toHost + Tagged(PhaseOfLines(lines), end.buffer[..if end.sent < end.got then end.got else end.sent]);
      SetLine(REQ, false);
      faults := faults + giveUps;
    }

    // A handshake with an initiator that sends any number of the bytes it still has. The bytes received are these, but
    // with a wait given up the last one may be any. The initiator releases ATN with its last message byte.
    method TargetReceiveHandShake(count: nat) returns (data: seq<Byte>)
      modifies this`lines, this`fromHost, this`faults
      ensures lines == old(lines) - {REQ} || lines == old(lines) - {REQ, ATN}
      ensures faults >= old(faults) && ReceiveOutcome(old(fromHost), count, data, faults - old(faults))
      ensures fromHost == old(fromHost)[|data|..]
    {
      var live: bool := *;
      var n: nat :| n <= |fromHost|;
      var c, empty := DataOutHandshake.Config(fromHost[..n], count, live), seq(count, _ => 0);
      var end, giveUps;
      ghost var schedule;
      end, giveUps, schedule := DataOutHandshake.Exchange(c, empty);
      DataOutHandshake.RunHasReceiveOutcome(c, empty, schedule);
      data := end.buffer[..end.got];
      PartOfHost(fromHost, n, count, data, giveUps);
      fromHost := fromHost[|data|..];
      SetLine(REQ, false);
      var releases: bool := *;
      if releases {
        SetLine(ATN, false);
      }
      faults := faults + giveUps;
    }

    // One byte of a command
    method ReceiveByte() returns (r: Option<Byte>)
      modifies this`lines, this`fromHost, this`faults
      ensures lines == old(lines) - {REQ} && faults >= old(faults)
      ensures r.None? ==> faults > old(faults)
      ensures r.Some? ==> old(fromHost) != [] && fromHost == old(fromHost)[1..]
                          && Heard([r.value], old(fromHost), faults - old(faults))
    {
      ghost var host, before := fromHost, faults;
      var atn := ATN in lines;
      var data := TargetReceiveHandShake(1);
      OutcomeIsHeard(host, 1, data, faults - before);
      if data == [] {
        r := None;
      } else {
        assert data == [data[0]];
        r := Some(data[0]);
      }
      // ATN belongs to MESSAGE OUT.
      SetLine(ATN, atn);
    }

    // The first byte of a command, which ICD host adapters prefix with a 0x1f
    method ReceiveOpcode() returns (b: Option<Byte>, ghost icd: seq<Byte>)
      modifies this`lines, this`fromHost, this`faults
      ensures lines == old(lines) - {REQ} && faults >= old(faults)
      ensures b.None? ==> faults > old(faults)
      ensures b.Some? ==>
                && ((icd == [] && b.value != 0x1f) || icd == [0x1f])
                && Hearing(old(fromHost), icd + [b.value], fromHost, faults - old(faults))
    {
      hide Heard;
      hide Hearing;
      ghost var host, f := fromHost, faults;
      HearingBegins(host);
      b := ReceiveByte();
      icd := [];
      if b.None? {
        return;
      }
      HearingGoesOn(host, [], b.value, host, 0, faults - f);
      assert [] + [b.value] == [b.value];
      if b.value == 0x1f {
        ghost var before, rest := faults, fromHost;
        b := ReceiveByte();
        icd := [0x1f];
        if b.None? {
          return;
        }
        HearingGoesOn(host, icd, b.value, rest, before - f, faults - before);
      }
    }

    // The CDB, or just the opcode of an unknown command, or None after a timeout. What has been heard is what the host
    // has put out, except for at most one wrong byte for each fault.
    method TargetCommandHandShake() returns (r: Option<seq<Byte>>, ghost heard: seq<Byte>)
      modifies this`lines, this`fromHost, this`faults
      ensures lines == old(lines) - {REQ} && faults >= old(faults)
      ensures r.None? ==> faults > old(faults)
      ensures r.Some? ==>
                && Hearing(old(fromHost), heard, fromHost, faults - old(faults))
                && HeardCommand(heard + fromHost, r.value, fromHost)
    {
      hide Heard;
      hide Hearing;
      hide CommandLength;
      ghost var host, f := fromHost, faults;
      var b;
      ghost var icd;
      b, icd := ReceiveOpcode();
      heard := [];
      if b.None? {
        return None, heard;
      }
      var buf := [b.value];
      heard := icd + buf;
      var count := CommandLength(b.value);
      if count == 0 {
        assert (heard + fromHost)[|heard|..] == fromHost && (heard + fromHost)[|icd|] == b.value;
        return Some(buf), heard;
      }
      while |buf| < count
        invariant 1 <= |buf| <= count && buf[0] == b.value && faults >= f && heard == icd + buf
        invariant Hearing(host, heard, fromHost, faults - f) && lines == old(lines) - {REQ}
      {
        ghost var before, rest := faults, fromHost;
        var c := ReceiveByte();
        if c.None? {
          return None, heard;
        }
        HearingGoesOn(host, heard, c.value, rest, before - f, faults - before);
        assert heard + [c.value] == icd + (buf + [c.value]);
        buf := buf + [c.value];
        heard := icd + buf;
      }
      CommandIsHeard(icd, buf, fromHost);
      return Some(buf), heard;
    }
  }
}
