// Meta data of the SIMH magtape format: four bytes, little endian, with a class in the upper four bits.
module Simh {
  import opened Basics

  const META_DATA_SIZE: nat := 4

  const GOOD_DATA: nat := 0
  const PRIVATE_MARKER: nat := 7
  const BAD_DATA: nat := 8
  const RESERVED_MARKER: nat := 15

  const ERASE_GAP: nat := 0xfff_fffe
  const END_OF_MEDIUM: nat := 0xfff_ffff
  const PRIVATE_MARKER_MAGIC: nat := 0x0053_3250
  const END_OF_DATA_TYPE: nat := 3

  const VALUE_LIMIT: nat := 0x1000_0000

  datatype MetaData = MetaData(cls: nat, value: nat) {
    predicate Valid() {
      cls < 16 && value < VALUE_LIMIT
    }
  }

  function FromLittleEndian(b: seq<Byte>): (m: MetaData)
    requires |b| == META_DATA_SIZE
    ensures m.Valid()
  {
    var data := 0x100_0000 * (b[3] as nat) + 0x1_0000 * (b[2] as nat) + 256 * (b[1] as nat) + b[0] as nat;
    MetaData(data / VALUE_LIMIT, data % VALUE_LIMIT)
  }

  function ToLittleEndian(m: MetaData): (b: seq<Byte>)
    requires m.Valid()
    ensures |b| == META_DATA_SIZE
  {
    [m.value % 256, m.value / 256 % 256, m.value / 0x1_0000 % 256, m.value / 0x100_0000 % 16 + m.cls * 16]
  }

  lemma JoinBytes(v: nat)
    requires v < VALUE_LIMIT
    ensures v == v % 256 + 256 * (v / 256 % 256) + 0x1_0000 * (v / 0x1_0000 % 256) + 0x100_0000 * (v / 0x100_0000)
    ensures v / 0x100_0000 < 16
  {
  }

  // Encoding loses nothing, and every four bytes are the encoding of one meta data value.
  lemma DecodeEncode(m: MetaData)
    requires m.Valid()
    ensures FromLittleEndian(ToLittleEndian(m)) == m
  {
    JoinBytes(m.value);
    var b := ToLittleEndian(m);
    var data := 0x100_0000 * (b[3] as nat) + 0x1_0000 * (b[2] as nat) + 256 * (b[1] as nat) + b[0] as nat;
    assert data == m.value + VALUE_LIMIT * m.cls;
  }

  lemma EncodeDecode(b: seq<Byte>)
    requires |b| == META_DATA_SIZE
    ensures ToLittleEndian(FromLittleEndian(b)) == b
  {
    var low, high := b[3] % 16, b[3] / 16;
    var v := 0x100_0000 * (low as nat) + 0x1_0000 * (b[2] as nat) + 256 * (b[1] as nat) + b[0] as nat;
    var data := 0x100_0000 * (b[3] as nat) + 0x1_0000 * (b[2] as nat) + 256 * (b[1] as nat) + b[0] as nat;
    assert data == v + VALUE_LIMIT * high;
    SplitBytes(b[0], b[1], b[2], low);
    assert FromLittleEndian(b) == MetaData(high, v);
    hide FromLittleEndian;
  }

  lemma SplitBytes(b0: Byte, b1: Byte, b2: Byte, low: Byte)
    requires low < 16
    ensures var v := 0x100_0000 * (low as nat) + 0x1_0000 * (b2 as nat) + 256 * (b1 as nat) + b0 as nat;
            v % 256 == b0 && v / 256 % 256 == b1 && v / 0x1_0000 % 256 == b2 && v / 0x100_0000 % 16 == low
            && v < VALUE_LIMIT
  {
    var v := 0x100_0000 * (low as nat) + 0x1_0000 * (b2 as nat) + 256 * (b1 as nat) + b0 as nat;
    Quotient(v, 256, 0x1_0000 * (low as nat) + 256 * (b2 as nat) + b1 as nat, b0);
    Quotient(0x1_0000 * (low as nat) + 256 * (b2 as nat) + b1 as nat, 256, 256 * (low as nat) + b2 as nat, b1);
    Quotient(256 * (low as nat) + b2 as nat, 256, low, b2);
    assert v / 0x1_0000 == v / 256 / 256 && v / 0x100_0000 == v / 0x1_0000 / 256;
  }

  lemma Quotient(v: nat, d: nat, q: nat, r: nat)
    requires d == 256 && r < d && v == 256 * q + r
    ensures v / d == q && v % d == r
  {
  }

  // A record has a length behind its data as well.
  predicate IsRecord(m: MetaData) {
    // Tape mark
    if m.cls == GOOD_DATA then m.value != 0
    // Bad data record, not recovered
    else if m.cls == BAD_DATA && m.value == 0 then false
    else m.cls != PRIVATE_MARKER && m.cls != RESERVED_MARKER
  }

  function Pad(length: nat): (r: nat)
    ensures length <= r <= length + 1 && r % 2 == 0
  {
    length + if length % 2 == 1 then 1 else 0
  }

  // The meta data at a position: end of medium behind the last complete one, None if the position is not in the file.
  function ReadMetaData(file: seq<Byte>, position: int): Option<MetaData> {
    if position < 0 then None
    else if position + META_DATA_SIZE <= |file| then Some(FromLittleEndian(file[position..position + META_DATA_SIZE]))
    else Some(MetaData(RESERVED_MARKER, END_OF_MEDIUM))
  }
}
