// Records that the drive cannot read again: those of odd length, and those that begin at an odd position. Their length
// is not where a READ looks for it.
module OddRecords {
  import opened Basics
  import opened Simh
  import opened TapeModel
  import opened TapeData

  // Where a READ looks for the length behind a record of n bytes at p.
  function LookedAt(p: nat, n: nat): nat {
    p + META_DATA_SIZE + (Pad(n) - n) + Pad(n)
  }

  lemma HeadIsFound(file: seq<Byte>, p: nat, l: int, n: nat, info: int)
    requires 0 < n < VALUE_LIMIT && BytesAt(file, p, ToLittleEndian(MetaData(GOOD_DATA, n)))
    ensures Find(file, Place(p, l), BLOCK, 0, false, Some(info)) ==
            Found(MetaData(GOOD_DATA, n), Place(p + 2 * META_DATA_SIZE + Pad(n), l + 1))
  {
    var m := MetaData(GOOD_DATA, n);
    DecodeEncode(m);
    assert NextMetaData(file, p, false) == Read(m, p + META_DATA_SIZE);
    hide NextMetaData;
    assert NextObject(file, Place(p, l), 0, false) == Object(BLOCK, n, m, Place(p + META_DATA_SIZE, l + 1));
    hide NextObject;
  }

  lemma MissedIsNotRead(file: seq<Byte>, p: nat, l: int, n: nat, count: nat, total: nat, info: int)
    requires 0 < n < VALUE_LIMIT && BytesAt(file, p, ToLittleEndian(MetaData(GOOD_DATA, n)))
    requires !TrailerFits(file, LookedAt(p, n), n)
    ensures ReadVariable(file, Place(p, l), n, false, info) == NotRead(MediumError)
    ensures n <= count && Whole(total, n) ==>
              ReadFixed(file, Place(p, l), count, n, total, info) == Some(NotRead(MediumError))
  {
    hide Find;
    hide ReadFixed;
    hide TrailerFits;
    HeadIsFound(file, p, l, n, info);
    hide BytesAt;
    hide ToLittleEndian;
    if n <= count {
      ReadFixedStep(file, Place(p, l), count, n, total, info);
    }
  }

  // The parts of a record, and what follows it
  lemma PartsOfRecord(file: seq<Byte>, p: nat, data: seq<Byte>, rest: seq<Byte>)
    requires 0 < |data| < VALUE_LIMIT && BytesAt(file, p, Record(p, data) + rest)
    ensures var meta, pad := ToLittleEndian(MetaData(GOOD_DATA, |data|)), Padding(p, |data|);
            && BytesAt(file, p, meta) && BytesAt(file, p + 4 + |data|, pad + meta + rest)
  {
    var meta, pad := ToLittleEndian(MetaData(GOOD_DATA, |data|)), Padding(p, |data|);
    hide BytesAt;
    hide ToLittleEndian;
    hide Padding;
    assert Record(p, data) + rest == meta + (data + (pad + meta + rest));
    hide Record;
    BytesSplit(file, p, meta, data + (pad + meta + rest));
    BytesSplit(file, p + 4, data, pad + meta + rest);
  }

  // An even number of bytes at an odd position: the READ takes the padding for the first byte of the length.
  lemma EarlyLength(n: nat, b: seq<Byte>)
    requires 0 < n < VALUE_LIMIT && |b| == META_DATA_SIZE
    requires b == [0] + ToLittleEndian(MetaData(GOOD_DATA, n))[..3]
    ensures FromLittleEndian(b).value != n
  {
    var w := ToLittleEndian(MetaData(GOOD_DATA, n));
    assert b[0] == 0 && b[1] == w[0] && b[2] == w[1] && b[3] == w[2];
    hide FromLittleEndian;
    ValueOfBytes(b);
    JoinBytes(n);
    if FromLittleEndian(b).value == n {
      NoDigits(w[0], w[1], w[2], b[3] % 16, n / 0x100_0000);
    }
  }

  lemma NoDigits(w0: Byte, w1: Byte, w2: Byte, low: nat, high: nat)
    requires low == (w2 as nat) % 16 && low < 16 && high < 16
    requires 0x100_0000 * low + 0x1_0000 * (w1 as nat) + 256 * (w0 as nat) ==
             0x100_0000 * high + 0x1_0000 * (w2 as nat) + 256 * (w1 as nat) + w0 as nat
    ensures w0 == 0 && w1 == 0 && w2 == 0 && high == 0
  {
    var a, b, c: nat := w0 as nat, w1 as nat, w2 as nat;
    SameDigit(0x1_0000 * low + 256 * b + a, 0, 0x1_0000 * high + 256 * c + b, a);
    SameDigit(256 * low + b, 0, 256 * high + c, b);
    SameDigit(low, 0, high, c);
  }

  lemma SameDigit(a: nat, b: nat, c: nat, d: nat)
    requires 256 * a + b == 256 * c + d && b < 256 && d < 256
    ensures a == c && b == d
  {
  }

  lemma SameHalf(a: nat, b: nat, c: nat, d: nat)
    requires 0x1_0000 * a + b == 0x1_0000 * c + d && b < 0x1_0000 && d < 0x1_0000
    ensures a == c && b == d
  {
  }

  // An odd number of bytes at an odd position: the READ looks two bytes too far.
  lemma LateLength(n: nat, b: seq<Byte>, rest: seq<Byte>)
    requires 0 < n < 0x100_0000 && |b| == META_DATA_SIZE && |rest| >= 2
    requires b == ToLittleEndian(MetaData(GOOD_DATA, n))[2..] + rest[..2]
    ensures FromLittleEndian(b).value == n <==>
              n % 0x1_0001 == 0 && rest[0] as nat == n / 0x1_0000 && rest[1] % 16 == 0
  {
    var m := MetaData(GOOD_DATA, n);
    var w := ToLittleEndian(m);
    assert b[0] == w[2] && b[1] == w[3] && b[2] == rest[0] && b[3] == rest[1];
    LastByte(m);
    ValueOfLength(m);
    hide ToLittleEndian;
    hide FromLittleEndian;
    ValueOfBytes(b);
    LateDigits(w[0], w[1], w[2], rest[0], rest[1] % 16, n);
  }

  lemma LateDigits(w0: Byte, w1: Byte, w2: Byte, x: Byte, y: nat, n: nat)
    requires n == 0x1_0000 * (w2 as nat) + 256 * (w1 as nat) + w0 as nat && y < 16
    ensures 0x100_0000 * y + 0x1_0000 * (x as nat) + w2 as nat == n <==>
              n % 0x1_0001 == 0 && x as nat == n / 0x1_0000 && y == 0
  {
    if n % 0x1_0001 == 0 {
      Multiples(w0, w1, w2, n);
    }
    if 0x100_0000 * y + 0x1_0000 * (x as nat) + w2 as nat == n {
      assert w1 == 0 && w0 == w2 == x && y == 0;
    }
  }

  // The multiples of 65537 below 2^24
  lemma Multiples(w0: Byte, w1: Byte, w2: Byte, n: nat)
    requires n == 0x1_0000 * (w2 as nat) + 256 * (w1 as nat) + w0 as nat && n % 0x1_0001 == 0
    ensures w0 == w2 && w1 == 0
  {
    var k := n / 0x1_0001;
    assert n == 0x1_0001 * k;
    var a, b, c: nat := w0 as nat, w1 as nat, w2 as nat;
    SameHalf(c, 256 * b + a, k, k);
  }

  // A record of an odd number of bytes at an even position, or the other way round, is never read.
  lemma OddOneIsMissed(file: seq<Byte>, p: nat, data: seq<Byte>)
    requires 0 < |data| < 0x100_0000 && (p + |data|) % 2 == 1 && BytesAt(file, p, Record(p, data))
    ensures !TrailerFits(file, LookedAt(p, |data|), |data|)
  {
    hide BytesAt;
    hide Record;
    hide ObjectAt;
    hide TrailerFits;
    if p % 2 == 0 {
      var o := Block(false, data);
      RecordIsObject(file, p, data);
      OddTrailerFails(file, p, o);
      assert o.Size() == Pad(|data|) + 8;
    } else {
      EvenAtOddIsMissed(file, p, data);
    }
  }

  lemma PartOfBytes(file: seq<Byte>, p: nat, b: seq<Byte>, i: nat, j: nat)
    requires BytesAt(file, p, b) && i <= j <= |b|
    ensures BytesAt(file, p + i, b[i..j])
  {
    hide BytesAt;
    assert b == b[..i] + b[i..] && b[i..] == b[i..j] + b[j..];
    BytesSplit(file, p, b[..i], b[i..]);
    BytesSplit(file, p + i, b[i..j], b[j..]);
  }

  lemma FitsByBytes(file: seq<Byte>, t: nat, b: seq<Byte>, n: nat)
    requires BytesAt(file, t, b) && |b| == META_DATA_SIZE
    ensures TrailerFits(file, t, n) <==> FromLittleEndian(b).value == n
  {
  }

  lemma EvenAtOddIsMissed(file: seq<Byte>, p: nat, data: seq<Byte>)
    requires 0 < |data| < VALUE_LIMIT && p % 2 == 1 && |data| % 2 == 0 && BytesAt(file, p, Record(p, data))
    ensures !TrailerFits(file, LookedAt(p, |data|), |data|)
  {
    hide BytesAt;
    hide Record;
    hide ToLittleEndian;
    hide FromLittleEndian;
    hide TrailerFits;
    var n, t := |data|, p + 4 + |data|;
    var meta := ToLittleEndian(MetaData(GOOD_DATA, n));
    assert Record(p, data) + [] == Record(p, data);
    PartsOfRecord(file, p, data, []);
    assert Padding(p, n) == [0] && LookedAt(p, n) == t;
    var b := [0] + meta[..3];
    assert [0] + meta + [] == [0] + meta && ([0] + meta)[0..4] == b;
    PartOfBytes(file, t, [0] + meta, 0, 4);
    EarlyLength(n, b);
    FitsByBytes(file, t, b, n);
  }

  // Between two odd records one can be taken for the other: the length is found exactly if it is a multiple of 65537
  // and the byte behind the record is the last one of the length again.
  lemma OddAtOddIsMissed(file: seq<Byte>, p: nat, data: seq<Byte>, rest: seq<Byte>)
    requires 0 < |data| < 0x100_0000 && p % 2 == 1 && |data| % 2 == 1 && |rest| >= 2
    requires BytesAt(file, p, Record(p, data) + rest)
    ensures TrailerFits(file, LookedAt(p, |data|), |data|) <==>
              |data| % 0x1_0001 == 0 && rest[0] as nat == |data| / 0x1_0000 && rest[1] % 16 == 0
  {
    hide BytesAt;
    hide Record;
    hide ToLittleEndian;
    hide FromLittleEndian;
    hide TrailerFits;
    var n, t := |data|, p + 4 + |data|;
    var meta := ToLittleEndian(MetaData(GOOD_DATA, n));
    PartsOfRecord(file, p, data, rest);
    assert Padding(p, n) == [] && LookedAt(p, n) == t + 2;
    var b := meta[2..] + rest[..2];
    assert [] + meta + rest == meta + rest && (meta + rest)[2..6] == b;
    PartOfBytes(file, t, meta + rest, 2, 6);
    LateLength(n, b, rest);
    FitsByBytes(file, t + 2, b, n);
  }

  // What follows the first record of a WRITE: the next one, or the end of the data if there is room for it.
  predicate Missed(p: nat, data: seq<Byte>, n: nat, end: seq<Byte>) {
    || (p + n) % 2 == 1
    || (p % 2 == 1 && n % 2 == 1 && if |data| > n then n % 0x1_0001 != 0 else end != [])
  }

  // A WRITE whose first record is missed by a READ
  lemma WrittenIsMissed(file: seq<Byte>, p: nat, data: seq<Byte>, n: nat, end: seq<Byte>)
    requires 0 < n < 0x100_0000 && n <= |data| && Missed(p, data, n, end)
    requires BytesAt(file, p, Records(p, data, n) + end) && (end == [] || end == ToLittleEndian(END_OF_DATA))
    ensures BytesAt(file, p, ToLittleEndian(MetaData(GOOD_DATA, n))) && !TrailerFits(file, LookedAt(p, n), n)
  {
    hide BytesAt;
    hide TrailerFits;
    hide Record;
    hide Records;
    hide ToLittleEndian;
    hide LookedAt;
    var first := data[..n];
    var r := Record(p, first);
    FirstRecord(p, data, n);
    var rest := Records(p + |r|, data[n..], n) + end;
    assert Records(p, data, n) + end == r + rest;
    PartsOfRecord(file, p, first, rest);
    BytesSplit(file, p, r, rest);
    if (p + n) % 2 == 1 {
      OddOneIsMissed(file, p, first);
    } else {
      RestOfRecord(p + |r|, data[n..], n, end);
      OddAtOddIsMissed(file, p, first, rest);
    }
  }

  // The first two bytes behind a record
  lemma RestOfRecord(p: nat, data: seq<Byte>, n: nat, end: seq<Byte>)
    requires 0 < n < 0x100_0000 && (data == [] ==> end == ToLittleEndian(END_OF_DATA))
    ensures var rest := Records(p, data, n) + end;
            |rest| >= 2 && (data == [] ==> rest[1] % 16 != 0)
  {
  }

  // Whoever reads a WRITE that is missed gets an error.
  lemma WrittenIsNotRead(before: seq<Byte>, p: nat, l: int, data: seq<Byte>, n: nat, fileSize: nat, info: int)
    requires 0 < n < 0x100_0000 && n <= |data| && Whole(|data|, n)
    requires Missed(p, data, n, EndOfDataAt(p + |Records(p, data, n)|, fileSize))
    ensures var end := EndOfDataAt(p + |Records(p, data, n)|, fileSize);
            var file := Overwrite(before, p, Records(p, data, n) + end);
            && ReadVariable(file, Place(p, l), n, false, info) == NotRead(MediumError)
            && ReadFixed(file, Place(p, l), |data|, n, |data|, info) == Some(NotRead(MediumError))
  {
    hide Records;
    hide Missed;
    hide ReadVariable;
    hide ReadFixed;
    hide Whole;
    hide TrailerFits;
    var end := EndOfDataAt(p + |Records(p, data, n)|, fileSize);
    var file := Overwrite(before, p, Records(p, data, n) + end);
    SomeRecords(p, data, n);
    assert BytesAt(file, p, Records(p, data, n) + end);
    hide Overwrite;
    hide BytesAt;
    WrittenIsMissed(file, p, data, n, end);
    MissedIsNotRead(file, p, l, n, |data|, |data|, info);
  }
}
