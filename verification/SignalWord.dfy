// The shared 32-bit bus word and the operations both sides perform on it.
// Lines use negative logic: a line is asserted when its bit is 0.
module SignalWord {

  datatype BusPhase =
    | BusFreePhase | ArbitrationPhase | SelectionPhase | ReselectionPhase | CommandPhase
    | DataInPhase | DataOutPhase | StatusPhase | MsgInPhase | MsgOutPhase | ReservedPhase

  datatype Line = ATN | RST | ACK | REQ | MSG | CD | IO | BSY | SEL

  // What the word means: eight data bits and the asserted lines, in positive logic.
  datatype View = View(dat: bv8, lines: set<Line>)

  const DATA_MASK: bv32 := 0x0003_fc00

  function Mask(line: Line): bv32 {
    match line
    case ATN => 0x0008_0000
    case RST => 0x0010_0000
    case ACK => 0x0020_0000
    case REQ => 0x0040_0000
    case MSG => 0x0080_0000
    case CD  => 0x0100_0000
    case IO  => 0x0200_0000
    case BSY => 0x0400_0000
    case SEL => 0x0800_0000
  }

  // The lines are the pins 19 to 27 in this order, and the data lines the eight pins from 10 on.
  lemma LinesArePins()
    ensures Mask(ATN) == 1 << 19 && Mask(RST) == 1 << 20 && Mask(ACK) == 1 << 21 && Mask(REQ) == 1 << 22
    ensures Mask(MSG) == 1 << 23 && Mask(CD) == 1 << 24 && Mask(IO) == 1 << 25 && Mask(BSY) == 1 << 26
    ensures Mask(SEL) == 1 << 27 && DATA_MASK == 0xff << 10
  {
  }

  function GetSignal(signals: bv32, line: Line): bool {
    signals & Mask(line) == 0
  }

  function GetDAT(signals: bv32): bv8 {
    (!(signals >> 10) & 0xff) as bv8
  }

  function SetDAT(signals: bv32, dat: bv8): bv32 {
    !((!signals & 0xfffc_03ff) | (dat as bv32 << 10))
  }

  function SetSignal(signals: bv32, line: Line, state: bool): bv32 {
    if state then signals & !Mask(line) else signals | Mask(line)
  }

  function ViewOf(signals: bv32): View {
    View(GetDAT(signals), set l: Line | GetSignal(signals, l))
  }

  // The 32-entry phase table.
  function PhaseOfIndex(index: bv32): BusPhase {
    if index < 16 then SelectionPhase
    else if index == 16 then MsgInPhase
    else if index == 17 then StatusPhase
    else if index == 18 then ReservedPhase
    else if index == 19 then DataInPhase
    else if index == 20 then MsgOutPhase
    else if index == 21 then CommandPhase
    else if index == 22 then ReservedPhase
    else if index == 23 then DataOutPhase
    else BusFreePhase
  }

  // The table is indexed by the five bits SEL, BSY, I/O, C/D, MSG.
  function PhaseOfWord(signals: bv32): BusPhase {
    PhaseOfIndex((signals >> 23) & 0x1f)
  }

  // The same table read as SCSI-2 states it, on asserted lines.
  function PhaseOfLines(lines: set<Line>): BusPhase {
    if SEL in lines then SelectionPhase
    else if BSY !in lines then BusFreePhase
    else if MSG in lines && CD !in lines then ReservedPhase
    else if IO in lines then
      if CD !in lines then DataInPhase else if MSG in lines then MsgInPhase else StatusPhase
    else
      if CD !in lines then DataOutPhase else if MSG in lines then MsgOutPhase else CommandPhase
  }

  lemma BitsAfterSetDat(signals: bv32, dat: bv32, mask: bv32)
    requires mask & DATA_MASK == 0 && dat & 0xff == dat
    ensures !((!signals & 0xfffc_03ff) | (dat << 10)) & mask == signals & mask
  {
  }

  lemma MaskIsNotData(line: Line)
    ensures Mask(line) & DATA_MASK == 0
  {
  }

  lemma ByteIsByte(dat: bv8)
    ensures (dat as bv32) & 0xff == dat as bv32
  {
  }

  lemma DatReadsBack(signals: bv32, dat: bv8)
    ensures GetDAT(SetDAT(signals, dat)) == dat
  {
    var d := dat as bv32;
    ByteIsByte(dat);
    assert !(!((!signals & 0xfffc_03ff) | (d << 10)) >> 10) & 0xff == d;
  }

  // Writing the data lines reads back exactly and leaves every control line alone.
  lemma SetDatIsExact(signals: bv32, dat: bv8)
    ensures ViewOf(SetDAT(signals, dat)) == ViewOf(signals).(dat := dat)
  {
    DatReadsBack(signals, dat);
    forall l: Line
      ensures GetSignal(SetDAT(signals, dat), l) == GetSignal(signals, l)
    {
      ByteIsByte(dat);
      MaskIsNotData(l);
      BitsAfterSetDat(signals, dat as bv32, Mask(l));
    }
  }

  lemma MasksAreDisjoint(a: Line, b: Line)
    requires a != b
    ensures Mask(a) & Mask(b) == 0
  {
    match a
    case ATN => case RST => case ACK => case REQ => case MSG => case CD => case IO => case BSY => case SEL =>
  }

  lemma BitsAfterSetSignal(signals: bv32, own: bv32, mask: bv32)
    requires own & mask == 0
    ensures (signals & !own) & mask == signals & mask
    ensures (signals | own) & mask == signals & mask
  {
  }

  lemma OwnBitAfterSetSignal(signals: bv32, own: bv32)
    ensures (signals & !own) & own == 0
    ensures (signals | own) & own == own
  {
  }

  lemma DataAfterSetSignal(signals: bv32, own: bv32)
    requires own & DATA_MASK == 0
    ensures !((signals & !own) >> 10) & 0xff == !(signals >> 10) & 0xff
    ensures !((signals | own) >> 10) & 0xff == !(signals >> 10) & 0xff
  {
  }

  lemma BitAfterPut(signals: bv32, own: bv32, state: bool)
    requires own != 0
    ensures (if state then signals & !own else signals | own) & own == 0 <==> state
  {
    OwnBitAfterSetSignal(signals, own);
  }

  lemma MaskIsNotZero(line: Line)
    ensures Mask(line) != 0
  {
  }

  lemma OwnLineAfterSetSignal(signals: bv32, line: Line, state: bool)
    ensures GetSignal(SetSignal(signals, line, state), line) == state
  {
    MaskIsNotZero(line);
    BitAfterPut(signals, Mask(line), state);
  }

  // What a line reads depends on its bit only.
  lemma SameBit(a: bv32, b: bv32, l: Line)
    requires a & Mask(l) == b & Mask(l)
    ensures GetSignal(a, l) == GetSignal(b, l)
  {
  }

  lemma OtherBitAfterSetSignal(signals: bv32, line: Line, state: bool, l: Line)
    requires Mask(line) & Mask(l) == 0
    ensures SetSignal(signals, line, state) & Mask(l) == signals & Mask(l)
  {
    hide Mask;
    BitsAfterSetSignal(signals, Mask(line), Mask(l));
  }

  lemma OtherLineAfterSetSignal(signals: bv32, line: Line, state: bool, l: Line)
    requires l != line
    ensures GetSignal(SetSignal(signals, line, state), l) == GetSignal(signals, l)
  {
    hide *;
    MasksAreDisjoint(line, l);
    OtherBitAfterSetSignal(signals, line, state, l);
    SameBit(SetSignal(signals, line, state), signals, l);
  }

  // Setting one line is exact and leaves the data and the other lines alone.
  lemma SetSignalIsExact(signals: bv32, line: Line, state: bool)
    ensures ViewOf(SetSignal(signals, line, state)) ==
            View(ViewOf(signals).dat,
                 if state then ViewOf(signals).lines + {line} else ViewOf(signals).lines - {line})
  {
    var after := SetSignal(signals, line, state);
    DataAfterPut(signals, line, state);
    forall l: Line
      ensures l in ViewOf(after).lines <==> (if l == line then state else l in ViewOf(signals).lines)
    {
      if l == line {
        OwnLineAfterSetSignal(signals, line, state);
      } else {
        OtherLineAfterSetSignal(signals, line, state, l);
      }
    }
  }

  lemma DataAfterPut(signals: bv32, line: Line, state: bool)
    ensures GetDAT(SetSignal(signals, line, state)) == GetDAT(signals)
  {
    MaskIsNotData(line);
    DataAfterSetSignal(signals, Mask(line));
  }

  lemma PhaseBits(signals: bv32, i: bv32)
    requires i == (signals >> 23) & 0x1f
    ensures signals & 0x0080_0000 == 0 <==> i & 1 == 0
    ensures signals & 0x0100_0000 == 0 <==> i & 2 == 0
    ensures signals & 0x0200_0000 == 0 <==> i & 4 == 0
    ensures signals & 0x0400_0000 == 0 <==> i & 8 == 0
    ensures signals & 0x0800_0000 == 0 <==> i & 16 == 0
  {
  }

  lemma TableOnBits(i: bv32)
    requires i <= 0x1f
    ensures i & 16 == 0 <==> i < 16
    ensures i & 16 != 0 ==> (i & 8 == 0 <==> i < 24)
    ensures 16 <= i < 24 ==> (i & 1 == 0 <==> i == 16 || i == 18 || i == 20 || i == 22)
    ensures 16 <= i < 24 ==> (i & 2 == 0 <==> i == 16 || i == 17 || i == 20 || i == 21)
    ensures 16 <= i < 24 ==> (i & 4 == 0 <==> i < 20)
  {
  }

  lemma LinesOfWord(signals: bv32)
    ensures SEL in ViewOf(signals).lines <==> signals & 0x0800_0000 == 0
    ensures BSY in ViewOf(signals).lines <==> signals & 0x0400_0000 == 0
    ensures MSG in ViewOf(signals).lines <==> signals & 0x0080_0000 == 0
    ensures CD in ViewOf(signals).lines <==> signals & 0x0100_0000 == 0
    ensures IO in ViewOf(signals).lines <==> signals & 0x0200_0000 == 0
  {
    LineOfWord(signals, SEL);
    LineOfWord(signals, BSY);
    LineOfWord(signals, MSG);
    LineOfWord(signals, CD);
    LineOfWord(signals, IO);
  }

  lemma LineOfWord(signals: bv32, l: Line)
    ensures l in ViewOf(signals).lines <==> signals & Mask(l) == 0
  {
  }

  // The 32-entry table on the raw bits is the phase definition on asserted lines.
  lemma PhaseTableIsStandard(signals: bv32)
    ensures PhaseOfWord(signals) == PhaseOfLines(ViewOf(signals).lines)
  {
    var i := (signals >> 23) & 0x1f;
    var lines := ViewOf(signals).lines;
    assert 16 <= i < 24 ==> (MSG in lines <==> i == 16 || i == 18 || i == 20 || i == 22)
      by { PhaseBits(signals, i); TableOnBits(i); LinesOfWord(signals); }
    assert 16 <= i < 24 ==> (CD in lines <==> i == 16 || i == 17 || i == 20 || i == 21)
      by { PhaseBits(signals, i); TableOnBits(i); LinesOfWord(signals); }
    assert 16 <= i < 24 ==> (IO in lines <==> i < 20)
      by { PhaseBits(signals, i); TableOnBits(i); LinesOfWord(signals); }
    assert (SEL in lines <==> i < 16) && (SEL !in lines ==> (BSY in lines <==> i < 24))
      by { PhaseBits(signals, i); TableOnBits(i); LinesOfWord(signals); }
    PhaseFromBits(lines, i);
  }

  lemma PhaseFromBits(lines: set<Line>, i: bv32)
    requires SEL in lines <==> i < 16
    requires SEL !in lines ==> (BSY in lines <==> i < 24)
    requires 16 <= i < 24 ==> (MSG in lines <==> i == 16 || i == 18 || i == 20 || i == 22)
    requires 16 <= i < 24 ==> (CD in lines <==> i == 16 || i == 17 || i == 20 || i == 21)
    requires 16 <= i < 24 ==> (IO in lines <==> i < 20)
    ensures PhaseOfLines(lines) == PhaseOfIndex(i)
  {
  }

  // A handshake moves REQ, ACK, ATN, RST and the data, and none of these changes the phase.
  lemma HandshakeKeepsPhase(signals: bv32, line: Line, state: bool, dat: bv8)
    requires line in {REQ, ACK, ATN, RST}
    ensures PhaseOfWord(SetSignal(signals, line, state)) == PhaseOfWord(signals)
    ensures PhaseOfWord(SetDAT(signals, dat)) == PhaseOfWord(signals)
  {
    hide *;
    PhaseTableIsStandard(signals);
    PhaseTableIsStandard(SetSignal(signals, line, state));
    PhaseTableIsStandard(SetDAT(signals, dat));
    SetSignalIsExact(signals, line, state);
    SetDatIsExact(signals, dat);
    PhaseIgnoresLine(ViewOf(signals).lines, line);
  }

  lemma PhaseIgnoresLine(lines: set<Line>, line: Line)
    requires line in {REQ, ACK, ATN, RST}
    ensures PhaseOfLines(lines + {line}) == PhaseOfLines(lines) == PhaseOfLines(lines - {line})
  {
  }
}
