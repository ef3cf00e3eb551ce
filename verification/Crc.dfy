// The frame check sequence of IEEE 802.3, section 3.2.9, computed bit by bit in a shift register.
module Crc {

  const POLYNOMIAL: bv32 := 0xedb8_8320

  function Sum(a: bv32, b: bv32): bv32 {
    a ^ b
  }

  function Wide(b: bv8): bv32 {
    b as bv32
  }

  function Complement(a: bv32): bv32 {
    !a
  }

  // One bit
  function Shift(crc: bv32): bv32 {
    (crc >> 1) ^ (if crc & 1 == 1 then POLYNOMIAL else 0)
  }

  function Shifts(crc: bv32, n: nat): bv32
    decreases n
  {
    if n == 0 then crc else Shifts(Shift(crc), n - 1)
  }

  // The register behind some bytes
  function Register(crc: bv32, data: seq<bv8>): bv32
    decreases |data|
  {
    if data == [] then crc else Register(Shifts(Sum(crc, Wide(data[0])), 8), data[1..])
  }

  function Fcs(data: seq<bv8>): bv32 {
    Complement(Register(0xffff_ffff, data))
  }

  lemma MaskedStep(crc: bv32)
    ensures (crc >> 1) ^ (POLYNOMIAL & (0 - (crc & 1))) == Shift(crc)
  {
    LastBit(crc);
    if crc & 1 == 0 {
      Unmasked(crc >> 1, POLYNOMIAL);
    } else {
      Masked(crc >> 1, POLYNOMIAL);
    }
  }

  lemma LastBit(crc: bv32)
    ensures crc & 1 == 0 || crc & 1 == 1
  {
  }

  lemma Unmasked(x: bv32, p: bv32)
    ensures x ^ (p & (0 - 0)) == x
  {
  }

  lemma Masked(x: bv32, p: bv32)
    ensures x ^ (p & (0 - 1)) == x ^ p
  {
  }

  method ShiftByte(crc0: bv32) returns (crc: bv32)
    ensures crc == Shifts(crc0, 8)
  {
    crc := crc0;
    var i := 0;
    while i < 8
      invariant 0 <= i <= 8 && Shifts(crc, 8 - i) == Shifts(crc0, 8)
    {
      MaskedStep(crc);
      var mask := 0 - (crc & 1);
      crc := (crc >> 1) ^ (POLYNOMIAL & mask);
      i := i + 1;
    }
  }

  method Crc32(data: seq<bv8>) returns (r: bv32)
    ensures r == Fcs(data)
  {
    hide Shifts;
    hide Sum;
    hide Wide;
    var crc: bv32 := 0xffff_ffff;
    var k := 0;
    while k < |data|
      invariant 0 <= k <= |data|
      invariant Register(crc, data[k..]) == Register(0xffff_ffff, data)
    {
      assert data[k..][0] == data[k] && data[k..][1..] == data[k + 1..];
      crc := ShiftByte(Sum(crc, Wide(data[k])));
      k := k + 1;
    }
    assert data[k..] == [];
    r := Complement(crc);
  }

  // Shifting is linear and loses nothing.
  lemma ShiftIsLinear(a: bv32, b: bv32)
    ensures Shift(a ^ b) == Shift(a) ^ Shift(b)
  {
    LowBitOfXor(a, b);
    ShiftOfXor(a, b);
    Xors(a >> 1, b >> 1, POLYNOMIAL);
    ShiftByParity(a);
    ShiftByParity(b);
    ShiftByParity(a ^ b);
    hide Shift;
  }

  lemma ShiftByParity(a: bv32)
    ensures Shift(a) == if a & 1 == 1 then (a >> 1) ^ POLYNOMIAL else a >> 1
    ensures a & 1 == 0 || a & 1 == 1
  {
  }

  lemma Xors(x: bv32, y: bv32, p: bv32)
    ensures (x ^ y) ^ p == x ^ (y ^ p) == (x ^ p) ^ y
    ensures (x ^ p) ^ (y ^ p) == x ^ y
  {
  }

  lemma LowBitOfXor(a: bv32, b: bv32)
    ensures (a ^ b) & 1 == (a & 1) ^ (b & 1)
    ensures a & 1 == 0 || a & 1 == 1
    ensures b & 1 == 0 || b & 1 == 1
  {
  }

  lemma ShiftOfXor(a: bv32, b: bv32)
    ensures (a ^ b) >> 1 == (a >> 1) ^ (b >> 1)
  {
  }

  lemma ShiftIsInjective(a: bv32, b: bv32)
    requires Shift(a) == Shift(b)
    ensures a == b
  {
    TopBit(a);
    TopBit(b);
    BitsOf(a, b);
  }

  lemma TopBit(a: bv32)
    ensures Shift(a) & 0x8000_0000 == 0 <==> a & 1 == 0
  {
  }

  lemma BitsOf(a: bv32, b: bv32)
    requires Shift(a) == Shift(b) && (a & 1 == 0 <==> b & 1 == 0)
    ensures a == b
  {
  }

  lemma ShiftOfSum(a: bv32, b: bv32)
    ensures Shift(Sum(a, b)) == Sum(Shift(a), Shift(b))
  {
    ShiftIsLinear(a, b);
  }

  lemma {:induction false} ShiftsAreLinear(a: bv32, b: bv32, n: nat)
    ensures Shifts(Sum(a, b), n) == Sum(Shifts(a, n), Shifts(b, n))
    decreases n
  {
    hide Shift;
    hide Sum;
    if n > 0 {
      ShiftOfSum(a, b);
      ShiftsAreLinear(Shift(a), Shift(b), n - 1);
    }
  }

  lemma {:induction false} ShiftsAreInjective(a: bv32, b: bv32, n: nat)
    requires Shifts(a, n) == Shifts(b, n)
    ensures a == b
    decreases n
  {
    if n > 0 {
      ShiftsAreInjective(Shift(a), Shift(b), n - 1);
      ShiftIsInjective(a, b);
    }
  }

  lemma {:induction false} ShiftsAdd(a: bv32, m: nat, n: nat)
    ensures Shifts(Shifts(a, m), n) == Shifts(a, m + n)
    decreases m
  {
    if m > 0 {
      ShiftsAdd(Shift(a), m - 1, n);
    }
  }

  lemma ShiftOfDouble(w: bv32)
    requires w < 0x8000_0000
    ensures Shift(w + w) == w
  {
    EvenDouble(w);
    ShiftByParity(w + w);
  }

  lemma EvenDouble(w: bv32)
    requires w < 0x8000_0000
    ensures (w + w) & 1 == 0 && (w + w) >> 1 == w
  {
  }

  lemma TimesTwo(x: bv32)
    requires x < 0x100_0000
    ensures var x1 := x + x;
            var x2 := x1 + x1;
            var x3 := x2 + x2;
            var x4 := x3 + x3;
            x < 0x8000_0000 && x1 < 0x8000_0000 && x2 < 0x8000_0000 && x3 < 0x8000_0000 && x4 < 0x1000_0000
              && x4 == x << 4
  {
  }

  lemma TimesTwoAgain(x: bv32)
    requires x < 0x1000_0000
    ensures var x1 := x + x;
            var x2 := x1 + x1;
            var x3 := x2 + x2;
            var x4 := x3 + x3;
            x < 0x8000_0000 && x1 < 0x8000_0000 && x2 < 0x8000_0000 && x3 < 0x8000_0000 && x4 == x << 4
  {
  }

  lemma TwoShifts(x: bv32)
    ensures (x << 4) << 4 == x << 8
  {
  }

  // Eight zero bits in front just move the rest down.
  lemma ZerosMoveDown(x: bv32)
    requires x < 0x100_0000
    ensures Shifts(x << 8, 8) == x
  {
    hide Shift;
    hide Shifts;
    TimesTwo(x);
    TimesTwoAgain(x << 4);
    TwoShifts(x);
    FourDoubles(x);
    FourDoubles(x << 4);
    ShiftsAdd(x << 8, 4, 4);
  }

  lemma FourDoubles(x: bv32)
    requires x < 0x1000_0000
    ensures Shifts(x << 4, 4) == x
  {
    TimesTwoAgain(x);
    var x1 := x + x;
    var x2 := x1 + x1;
    var x3 := x2 + x2;
    ShiftOfDouble(x);
    ShiftOfDouble(x1);
    ShiftOfDouble(x2);
    ShiftOfDouble(x3);
    hide Shift;
    FourShifts(x << 4, x3, x2, x1, x);
  }

  lemma FourShifts(a: bv32, b: bv32, c: bv32, d: bv32, e: bv32)
    requires Shift(a) == b && Shift(b) == c && Shift(c) == d && Shift(d) == e
    ensures Shifts(a, 4) == e
  {
    hide Shift;
    assert Shifts(d, 1) == Shifts(e, 0) == e;
    assert Shifts(c, 2) == e;
    assert Shifts(b, 3) == e;
  }

  function Up(w: bv32): bv32 {
    w << 8
  }

  // Up to four bytes as a word, the first one in the low bits
  function Word(b: seq<bv8>): (w: bv32)
    requires |b| <= 4
    decreases |b|
  {
    if b == [] then 0 else Sum(Wide(b[0]), Up(Word(b[1..])))
  }

  function Limit(n: nat): bv32
    requires n <= 3
  {
    if n == 0 then 1 else if n == 1 then 0x100 else if n == 2 then 0x1_0000 else 0x100_0000
  }

  lemma {:induction false} WordIsSmall(b: seq<bv8>)
    requires |b| <= 3
    ensures Word(b) < Limit(|b|)
    decreases |b|
  {
    hide Sum;
    hide Wide;
    hide Up;
    if b != [] {
      WordIsSmall(b[1..]);
      WideIsSmall(b[0]);
      SmallSum(Wide(b[0]), Word(b[1..]), |b|);
    }
  }

  lemma SmallSum(d: bv32, w: bv32, n: nat)
    requires d < 0x100 && 1 <= n <= 3 && w < Limit(n - 1)
    ensures Sum(d, Up(w)) < Limit(n)
  {
    if n == 1 {
      SmallSum1(d, w);
    } else if n == 2 {
      SmallSum2(d, w);
    } else {
      SmallSum3(d, w);
    }
  }

  lemma SmallSum1(d: bv32, w: bv32)
    requires d < 0x100 && w < 1
    ensures d ^ (w << 8) < 0x100
  {
  }

  lemma SmallSum2(d: bv32, w: bv32)
    requires d < 0x100 && w < 0x100
    ensures d ^ (w << 8) < 0x1_0000
  {
  }

  lemma SmallSum3(d: bv32, w: bv32)
    requires d < 0x100 && w < 0x1_0000
    ensures d ^ (w << 8) < 0x100_0000
  {
  }

  lemma SumAssociates(r: bv32, d: bv32, w: bv32)
    ensures Sum(r, Sum(d, w)) == Sum(Sum(r, d), w)
  {
  }

  lemma SumWithZero(r: bv32)
    ensures Sum(r, 0) == r
  {
  }

  lemma ZerosMoveUp(w: bv32)
    requires w < 0x100_0000
    ensures Shifts(Up(w), 8) == w
  {
    ZerosMoveDown(w);
  }

  lemma SmallWord(b: seq<bv8>)
    requires |b| <= 3
    ensures Word(b) < 0x100_0000
  {
    WordIsSmall(b);
    hide Word;
  }

  // Up to four bytes enter the register as the word that they make.
  lemma {:induction false} RegisterOfWord(r: bv32, b: seq<bv8>)
    requires |b| <= 4
    ensures Register(r, b) == Shifts(Sum(r, Word(b)), 8 * |b|)
    decreases |b|
  {
    hide Sum;
    hide Wide;
    hide Up;
    hide Shift;
    if b == [] {
      SumWithZero(r);
    } else {
      var d, rest := Wide(b[0]), b[1..];
      var w := Word(rest);
      SmallWord(rest);
      RegisterOfWord(Shifts(Sum(r, d), 8), rest);
      SumAssociates(r, d, Up(w));
      ShiftsAreLinear(Sum(r, d), Up(w), 8);
      ZerosMoveUp(w);
      ShiftsAdd(Sum(r, Word(b)), 8, 8 * |rest|);
      EightMore(|b|, |rest|);
    }
  }

  lemma EightMore(n: nat, m: nat)
    requires n == m + 1
    ensures 8 + 8 * m == 8 * n
  {
  }

  lemma {:induction false} WordIsInjective(a: seq<bv8>, b: seq<bv8>)
    requires |a| == |b| <= 4 && Word(a) == Word(b)
    ensures a == b
    decreases |a|
  {
    hide Sum;
    hide Wide;
    hide Up;
    if a != [] {
      SmallWord(a[1..]);
      SmallWord(b[1..]);
      SplitSum(a[0], Word(a[1..]), b[0], Word(b[1..]));
      WordIsInjective(a[1..], b[1..]);
      assert a == [a[0]] + a[1..] && b == [b[0]] + b[1..];
    }
  }

  lemma SplitSum(d: bv8, w: bv32, e: bv8, x: bv32)
    requires w < 0x100_0000 && x < 0x100_0000 && Sum(Wide(d), Up(w)) == Sum(Wide(e), Up(x))
    ensures d == e && w == x
  {
    hide *;
    WideIsSmall(d);
    WideIsSmall(e);
    UpSplits(Wide(d), w, Wide(e), x);
    WideIsInjective(d, e);
  }

  lemma WideIsSmall(d: bv8)
    ensures Wide(d) < 0x100
  {
  }

  lemma WideIsInjective(a: bv8, b: bv8)
    requires Wide(a) == Wide(b)
    ensures a == b
  {
    ByteIsInjective(a, b);
  }

  lemma UpSplits(d: bv32, w: bv32, e: bv32, x: bv32)
    requires d < 0x100 && e < 0x100 && w < 0x100_0000 && x < 0x100_0000 && Sum(d, Up(w)) == Sum(e, Up(x))
    ensures d == e && w == x
  {
    hide Sum;
    hide Up;
    LowAndHigh(d, w);
    LowAndHigh(e, x);
  }

  lemma LowAndHigh(d: bv32, w: bv32)
    requires d < 0x100 && w < 0x100_0000
    ensures Sum(d, Up(w)) & 0xff == d && Sum(d, Up(w)) >> 8 == w
  {
  }

  lemma {:induction false} RegisterOfConcat(r: bv32, a: seq<bv8>, b: seq<bv8>)
    ensures Register(r, a + b) == Register(Register(r, a), b)
    decreases |a|
  {
    if a == [] {
      assert a + b == b;
    } else {
      assert (a + b)[1..] == a[1..] + b;
      RegisterOfConcat(Shifts(Sum(r, Wide(a[0])), 8), a[1..], b);
    }
  }

  lemma ByteIsInjective(a: bv8, b: bv8)
    requires a as bv32 == b as bv32
    ensures a == b
  {
  }

  lemma {:induction false} RegisterIsInjective(r: bv32, s: bv32, data: seq<bv8>)
    requires Register(r, data) == Register(s, data)
    ensures r == s
    decreases |data|
  {
    if data != [] {
      hide Sum;
      hide Wide;
      hide Shifts;
      var d := Wide(data[0]);
      RegisterIsInjective(Shifts(Sum(r, d), 8), Shifts(Sum(s, d), 8), data[1..]);
      ShiftsAreInjective(Sum(r, d), Sum(s, d), 8);
      CancelXor(r, s, d);
    }
  }

  lemma CancelXor(r: bv32, s: bv32, d: bv32)
    requires Sum(r, d) == Sum(s, d)
    ensures r == s
  {
  }

  lemma CancelSum(r: bv32, x: bv32, y: bv32)
    requires Sum(r, x) == Sum(r, y)
    ensures x == y
  {
  }

  // The check sequence as it is appended, low byte first
  function FcsBytes(c: bv32): (b: seq<bv8>)
    ensures |b| == 4
  {
    [(c & 0xff) as bv8, ((c >> 8) & 0xff) as bv8, ((c >> 16) & 0xff) as bv8, ((c >> 24) & 0xff) as bv8]
  }

  lemma BytesOfWord(c: bv32)
    ensures Word(FcsBytes(c)) == c
  {
    var b := FcsBytes(c);
    assert b[1..] == [b[1], b[2], b[3]] && b[1..][1..] == [b[2], b[3]] && b[1..][1..][1..] == [b[3]];
    assert b[1..][1..][1..][1..] == [];
    hide Sum;
    hide Wide;
    hide Up;
    assert Word([b[3]]) == Sum(Wide(b[3]), Up(0));
    assert Word([b[2], b[3]]) == Sum(Wide(b[2]), Up(Word([b[3]])));
    assert Word([b[1], b[2], b[3]]) == Sum(Wide(b[1]), Up(Word([b[2], b[3]])));
    JoinBytes(c);
  }

  lemma JoinBytes(c: bv32)
    ensures var b := FcsBytes(c);
            Sum(Wide(b[0]), Up(Sum(Wide(b[1]), Up(Sum(Wide(b[2]), Up(Sum(Wide(b[3]), Up(0)))))))) == c
  {
    Join(c);
  }

  lemma Join(c: bv32)
    ensures (c & 0xff)
            ^ ((((c >> 8) & 0xff) ^ ((((c >> 16) & 0xff) ^ ((((c >> 24) & 0xff) ^ (0 << 8)) << 8)) << 8)) << 8) == c
  {
  }

  lemma OnesShifted()
    ensures Shifts(0xffff_ffff, 32) == 0xdebb_20e3
  {
    hide Shifts;
    FourShifts(0xffff_ffff, 0x9247_7cdf, 0xa49b_3d4f, 0xbff5_1d87, 0xb242_0de3);
    FourShifts(0xb242_0de3, 0xb499_85d1, 0xb7f4_41c8, 0x5bfa_20e4, 0x2dfd_1072);
    FourShifts(0x2dfd_1072, 0x16fe_8839, 0xe6c7_c73c, 0x7363_e39e, 0x39b1_f1cf);
    FourShifts(0x39b1_f1cf, 0xf160_7bc7, 0x9508_bec3, 0xa73c_dc41, 0xbe26_ed00);
    FourShifts(0xbe26_ed00, 0x5f13_7680, 0x2f89_bb40, 0x17c4_dda0, 0x0be2_6ed0);
    FourShifts(0x0be2_6ed0, 0x05f1_3768, 0x02f8_9bb4, 0x017c_4dda, 0x00be_26ed);
    FourShifts(0x00be_26ed, 0xede7_9056, 0x76f3_c82b, 0xd6c1_6735, 0x86d8_30ba);
    FourShifts(0x86d8_30ba, 0x436c_185d, 0xcc0e_8f0e, 0x6607_4787, 0xdebb_20e3);
    ShiftsAdd(0xffff_ffff, 4, 4);
    ShiftsAdd(0xffff_ffff, 8, 4);
    ShiftsAdd(0xffff_ffff, 12, 4);
    ShiftsAdd(0xffff_ffff, 16, 4);
    ShiftsAdd(0xffff_ffff, 20, 4);
    ShiftsAdd(0xffff_ffff, 24, 4);
    ShiftsAdd(0xffff_ffff, 28, 4);
  }

  const RESIDUE: bv32 := 0x2144_df1c

  lemma ComplementSum(r: bv32)
    ensures Sum(r, Complement(r)) == 0xffff_ffff
  {
  }

  // The check over a frame with its check sequence is always the same.
  lemma Residue(frame: seq<bv8>)
    ensures Fcs(frame + FcsBytes(Fcs(frame))) == RESIDUE
  {
    var r := Register(0xffff_ffff, frame);
    var b := FcsBytes(Complement(r));
    hide Sum;
    hide Word;
    hide Shifts;
    hide FcsBytes;
    RegisterOfConcat(0xffff_ffff, frame, b);
    RegisterOfWord(r, b);
    BytesOfWord(Complement(r));
    ComplementSum(r);
    OnesShifted();
    hide Register;
  }

  // Frames that differ within four consecutive bytes have different check sequences.
  lemma BurstIsDetected(head: seq<bv8>, a: seq<bv8>, b: seq<bv8>, tail: seq<bv8>)
    requires |a| == |b| <= 4 && a != b
    ensures Fcs(head + a + tail) != Fcs(head + b + tail)
  {
    hide Sum;
    hide Word;
    hide Shifts;
    hide Complement;
    hide Register;
    var r := Register(0xffff_ffff, head);
    RegisterOfConcat(0xffff_ffff, head + a, tail);
    RegisterOfConcat(0xffff_ffff, head + b, tail);
    RegisterOfConcat(0xffff_ffff, head, a);
    RegisterOfConcat(0xffff_ffff, head, b);
    RegisterOfWord(r, a);
    RegisterOfWord(r, b);
    if Fcs(head + a + tail) == Fcs(head + b + tail) {
      SameComplement(Register(Register(r, a), tail), Register(Register(r, b), tail));
      RegisterIsInjective(Register(r, a), Register(r, b), tail);
      ShiftsAreInjective(Sum(r, Word(a)), Sum(r, Word(b)), 8 * |a|);
      CancelSum(r, Word(a), Word(b));
      WordIsInjective(a, b);
    }
  }

  lemma SameComplement(x: bv32, y: bv32)
    requires Complement(x) == Complement(y)
    ensures x == y
  {
  }

  // A frame with its check sequence in which up to four consecutive bytes have been changed is recognised.
  lemma DamageIsNoticed(frame: seq<bv8>, damaged: seq<bv8>, k: nat, n: nat)
    requires var sent := frame + FcsBytes(Fcs(frame));
             && |damaged| == |sent| && damaged != sent && n <= 4 && k + n <= |sent|
             && damaged[..k] == sent[..k] && damaged[k + n..] == sent[k + n..]
    ensures Fcs(damaged) != RESIDUE
  {
    hide Fcs;
    hide FcsBytes;
    var sent := frame + FcsBytes(Fcs(frame));
    Residue(frame);
    var head, a, b, tail := sent[..k], sent[k..k + n], damaged[k..k + n], sent[k + n..];
    assert sent == head + a + tail && damaged == head + b + tail;
    BurstIsDetected(head, a, b, tail);
  }

  // Receive: the check sequence is appended to the frame.
  method Receive(frame: seq<bv8>) returns (buf: seq<bv8>)
    ensures frame == [] ==> buf == []
    ensures frame != [] ==> |buf| == |frame| + 4 && buf[..|frame|] == frame && Fcs(buf) == RESIDUE
  {
    hide Fcs;
    hide FcsBytes;
    buf := frame;
    if |buf| > 0 {
      var crc := Crc32(buf);
      buf := buf + FcsBytes(crc);
      Residue(frame);
    }
  }
}
