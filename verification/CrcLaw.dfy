// The check sequence as section 3.2.9 of IEEE 802.3 defines it: the complement of the remainder of a polynomial
// division.
module CrcLaw {
  import opened Crc

  // ---- Division of polynomials over two elements ----

  // Bits are coefficients, highest power first.
  function Xor(a: seq<bool>, b: seq<bool>): (r: seq<bool>)
    requires |a| == |b|
    ensures |r| == |a|
  {
    seq(|a|, i requires 0 <= i < |a| => a[i] != b[i])
  }

  function Zeros(n: nat): (r: seq<bool>)
    ensures |r| == n
  {
    seq(n, i => false)
  }

  // The generating polynomial, without x^32
  function Generator(): (r: seq<bool>)
    ensures |r| == 32
  {
    seq(32, i => 31 - i in {26, 23, 22, 16, 12, 11, 10, 8, 7, 5, 4, 2, 1, 0})
  }

  // A remainder is multiplied by x, a coefficient is added, and the generating polynomial is taken off once if there is
  // an x^32.
  function Reduced(r: seq<bool>, b: bool, high: bool): (s: seq<bool>)
    requires |r| == 32
    ensures |s| == 32
  {
    if high then Xor(r[1..] + [b], Generator()) else r[1..] + [b]
  }

  function Remainder(bits: seq<bool>): (r: seq<bool>)
    ensures |r| == 32
  {
    if bits == [] then Zeros(32)
    else
      var n := |bits| - 1;
      var r := Remainder(bits[..n]);
      Reduced(r, bits[n], r[0])
  }

  // What is smaller than the generating polynomial is its own remainder.
  lemma {:induction false} SmallRemainder(bits: seq<bool>)
    requires |bits| <= 32
    ensures Remainder(bits) == Zeros(32 - |bits|) + bits
    decreases |bits|
  {
    if bits != [] {
      var n := |bits| - 1;
      SmallRemainder(bits[..n]);
      assert bits == bits[..n] + [bits[n]];
      assert (Zeros(32 - n) + bits[..n])[1..] == Zeros(31 - n) + bits[..n];
    }
  }

  // ---- The register, bit by bit ----

  function Fed(s: seq<bool>, b: bool): (r: seq<bool>)
    requires |s| == 32
    ensures |r| == 32
  {
    Reduced(s, false, s[0] != b)
  }

  function FedAll(s: seq<bool>, bits: seq<bool>): (r: seq<bool>)
    requires |s| == 32
    ensures |r| == 32
    decreases |bits|
  {
    if bits == [] then s else FedAll(Fed(s, bits[0]), bits[1..])
  }

  lemma {:induction false} FedAppend(s: seq<bool>, a: seq<bool>, b: seq<bool>)
    requires |s| == 32
    ensures FedAll(s, a + b) == FedAll(FedAll(s, a), b)
    decreases |a|
  {
    hide Fed;
    if a == [] {
      assert a + b == b;
    } else {
      assert (a + b)[1..] == a[1..] + b;
      FedAppend(Fed(s, a[0]), a[1..], b);
    }
  }

  lemma FedOne(s: seq<bool>, b: bool)
    requires |s| == 32
    ensures FedAll(s, [b]) == Fed(s, b)
  {
    hide Fed;
    assert [b][1..] == [];
  }

  // The register runs ahead of the division by the 32 coefficients that it has not seen yet.
  lemma FedIsReduced(s: seq<bool>, w: seq<bool>, e: bool)
    requires |s| == |w| == 32
    ensures Reduced(Xor(s, w), e, Xor(s, w)[0]) == Xor(Fed(s, w[0]), w[1..] + [e])
  {
    var high := s[0] != w[0];
    assert Xor(s, w)[0] == high;
    assert Xor(s, w)[1..] + [e] == Xor(s[1..] + [false], w[1..] + [e]);
    hide Generator;
  }

  // The first 32 coefficients are changed by those of an initial register.
  function Changed(s: seq<bool>, bits: seq<bool>): (r: seq<bool>)
    requires |s| == 32 <= |bits|
    ensures |r| == |bits|
  {
    Xor(s, bits[..32]) + bits[32..]
  }

  lemma {:induction false} RegisterIsAhead(s: seq<bool>, bits: seq<bool>, j: nat)
    requires |s| == 32 && 32 + j <= |bits|
    ensures Remainder(Changed(s, bits)[..32 + j]) == Xor(FedAll(s, bits[..j]), bits[j..32 + j])
    decreases j
  {
    hide Reduced;
    hide Fed;
    var all := Changed(s, bits);
    if j == 0 {
      assert all[..32] == Xor(s, bits[..32]);
      SmallRemainder(all[..32]);
      assert Zeros(0) + all[..32] == all[..32] && bits[..0] == [] && bits[0..32] == bits[..32];
    } else {
      RegisterIsAhead(s, bits, j - 1);
      var w, t := bits[j - 1..31 + j], FedAll(s, bits[..j - 1]);
      assert all[..32 + j][..31 + j] == all[..31 + j] && all[31 + j] == bits[31 + j];
      FedIsReduced(t, w, bits[31 + j]);
      assert bits[j..32 + j] == w[1..] + [bits[31 + j]] && w[0] == bits[j - 1];
      assert bits[..j] == bits[..j - 1] + [bits[j - 1]];
      FedAppend(s, bits[..j - 1], [bits[j - 1]]);
      FedOne(t, bits[j - 1]);
    }
  }

  // Feeding a message into the register gives the remainder of the message times x^32, with the initial register added
  // to its first coefficients.
  lemma RegisterIsRemainder(s: seq<bool>, message: seq<bool>)
    requires |s| == 32
    ensures FedAll(s, message) == Remainder(Changed(s, message + Zeros(32)))
  {
    var bits, n := message + Zeros(32), |message|;
    RegisterIsAhead(s, bits, n);
    assert Changed(s, bits)[..32 + n] == Changed(s, bits) && bits[..n] == message && bits[n..32 + n] == Zeros(32);
    XorZeros(FedAll(s, message));
  }

  lemma XorZeros(s: seq<bool>)
    ensures Xor(s, Zeros(|s|)) == s
  {
  }

  // ---- Registers as coefficients ----

  predicate Odd(c: bv32) {
    c & 1 == 1
  }

  function Half(c: bv32): bv32 {
    c >> 1
  }

  // The lowest bit of a register is the highest coefficient, and the lowest bit of a byte is sent first.
  function Bits(c: bv32, n: nat): (r: seq<bool>)
    ensures |r| == n
    decreases n
  {
    if n == 0 then [] else [Odd(c)] + Bits(Half(c), n - 1)
  }

  function Down(c: bv32, n: nat): bv32
    decreases n
  {
    if n == 0 then c else Down(Half(c), n - 1)
  }

  function MessageBits(data: seq<bv8>): seq<bool> {
    if data == [] then [] else Bits(Wide(data[0]), 8) + MessageBits(data[1..])
  }

  function Ones(n: nat): (r: seq<bool>)
    ensures |r| == n
  {
    seq(n, i => true)
  }

  lemma HalfOfSum(a: bv32, b: bv32)
    ensures Half(Sum(a, b)) == Sum(Half(a), Half(b))
  {
    ShiftOfXor(a, b);
  }

  lemma OddSum(a: bv32, b: bv32)
    ensures Odd(Sum(a, b)) == (Odd(a) != Odd(b))
  {
    LowBitOfXor(a, b);
  }

  lemma {:induction false} BitsOfSum(a: bv32, b: bv32, n: nat)
    ensures Bits(Sum(a, b), n) == Xor(Bits(a, n), Bits(b, n))
    decreases n
  {
    hide Odd;
    hide Half;
    hide Sum;
    if n > 0 {
      BitsOfSum(Half(a), Half(b), n - 1);
      HalfOfSum(a, b);
      OddSum(a, b);
    }
  }

  lemma {:induction false} LastBit(c: bv32, n: nat)
    ensures Bits(c, n + 1) == Bits(c, n) + [Odd(Down(c, n))]
    decreases n
  {
    hide Odd;
    hide Half;
    if n > 0 {
      LastBit(Half(c), n - 1);
    } else {
      assert Bits(Half(c), 0) == [];
    }
  }

  predicate AtMost(c: bv32, d: bv32) {
    c <= d
  }

  lemma {:induction false} DownIsMonotone(c: bv32, d: bv32, n: nat)
    requires AtMost(c, d)
    ensures AtMost(Down(c, n), Down(d, n))
    decreases n
  {
    hide Half;
    hide AtMost;
    if n > 0 {
      HalvesInOrder(c, d);
      DownIsMonotone(Half(c), Half(d), n - 1);
    }
  }

  lemma HalvesInOrder(c: bv32, d: bv32)
    requires AtMost(c, d)
    ensures AtMost(Half(c), Half(d))
  {
  }

  lemma FourDown(c: bv32, d: bv32, n: nat)
    requires Half(Half(Half(Half(c)))) == d
    ensures Down(c, n + 4) == Down(d, n)
  {
    hide Half;
    hide Down;
    OneDown(c, n + 3);
    OneDown(Half(c), n + 2);
    OneDown(Half(Half(c)), n + 1);
    OneDown(Half(Half(Half(c))), n);
  }

  lemma OneDown(c: bv32, n: nat)
    ensures Down(c, n + 1) == Down(Half(c), n)
  {
    hide Half;
  }

  lemma LastHalves()
    ensures Down(7, 3) == 0
  {
    assert Half(7) == 3 && Half(3) == 1 && Half(1) == 0;
    hide Half;
    assert Down(7, 3) == Down(3, 2) == Down(1, 1) == Down(0, 0);
  }

  lemma OnlyZero(c: bv32)
    requires AtMost(c, 0)
    ensures c == 0
  {
  }

  lemma NothingAbove(c: bv32)
    ensures Down(Half(c), 31) == 0
  {
    hide Down;
    HalfIsSmall(c);
    DownIsMonotone(Half(c), 0x7fff_ffff, 31);
    FourDown(0x7fff_ffff, 0x07ff_ffff, 27);
    FourDown(0x07ff_ffff, 0x007f_ffff, 23);
    FourDown(0x007f_ffff, 0x0007_ffff, 19);
    FourDown(0x0007_ffff, 0x7fff, 15);
    FourDown(0x7fff, 0x07ff, 11);
    FourDown(0x07ff, 0x7f, 7);
    FourDown(0x7f, 7, 3);
    LastHalves();
    OnlyZero(Down(Half(c), 31));
  }

  lemma HalfIsSmall(c: bv32)
    ensures AtMost(Half(c), 0x7fff_ffff)
  {
  }

  lemma MoreBits(w: bv32, n: nat)
    requires n > 0
    ensures Bits(w, n) == [Odd(w)] + Bits(Half(w), n - 1)
  {
    hide Odd;
    hide Half;
  }

  lemma ZeroIsEven()
    ensures !Odd(0)
  {
  }

  lemma BitsOfHalf(c: bv32)
    ensures Bits(Half(c), 32) == Bits(c, 32)[1..] + [false]
  {
    hide Bits;
    hide Half;
    hide Odd;
    hide Down;
    MoreBits(c, 32);
    LastBit(Half(c), 31);
    NothingAbove(c);
    ZeroIsEven();
  }

  lemma FourBits(c: bv32, d: bv32, n: nat, p: bool, q: bool, r: bool, s: bool)
    requires Odd(c) == p && Odd(Half(c)) == q && Odd(Half(Half(c))) == r && Odd(Half(Half(Half(c)))) == s
    requires Half(Half(Half(Half(c)))) == d
    ensures Bits(c, n + 4) == [p, q, r, s] + Bits(d, n)
  {
    hide Half;
    hide Odd;
    hide Bits;
    var c1 := Half(c);
    var c2 := Half(c1);
    var c3 := Half(c2);
    MoreBits(c, n + 4);
    MoreBits(c1, n + 3);
    MoreBits(c2, n + 2);
    MoreBits(c3, n + 1);
  }

  lemma NoBits(c: bv32)
    ensures Bits(c, 0) == []
  {
  }

  lemma BitsOfGenerator()
    ensures Bits(POLYNOMIAL, 32) == Generator()
  {
    hide Bits;
    FourBits(0xedb8_8320, 0x0edb_8832, 28, false, false, false, false);
    FourBits(0x0edb_8832, 0x00ed_b883, 24, false, true, false, false);
    FourBits(0x00ed_b883, 0x000e_db88, 20, true, true, false, false);
    FourBits(0x000e_db88, 0xedb8, 16, false, false, false, true);
    FourBits(0xedb8, 0x0edb, 12, false, false, false, true);
    FourBits(0x0edb, 0xed, 8, true, true, false, true);
    FourBits(0xed, 0xe, 4, true, false, true, true);
    FourBits(0xe, 0, 0, false, true, true, true);
    NoBits(0);
    hide Odd;
    hide Half;
  }

  lemma BitsOfOnes()
    ensures Bits(0xffff_ffff, 32) == Ones(32)
  {
    hide Bits;
    FourBits(0xffff_ffff, 0x0fff_ffff, 28, true, true, true, true);
    FourBits(0x0fff_ffff, 0x00ff_ffff, 24, true, true, true, true);
    FourBits(0x00ff_ffff, 0x000f_ffff, 20, true, true, true, true);
    FourBits(0x000f_ffff, 0xffff, 16, true, true, true, true);
    FourBits(0xffff, 0x0fff, 12, true, true, true, true);
    FourBits(0x0fff, 0xff, 8, true, true, true, true);
    FourBits(0xff, 0xf, 4, true, true, true, true);
    FourBits(0xf, 0, 0, true, true, true, true);
    NoBits(0);
    hide Odd;
    hide Half;
  }

  // ---- One shift with one bit of the message ----

  function Low(w: bv32): bv32 {
    w & 1
  }

  function Rest(w: bv32): bv32 {
    w & 0xffff_fffe
  }

  lemma ShiftOf(s: bv32)
    ensures Shift(s) == if Odd(s) then Sum(Half(s), POLYNOMIAL) else Half(s)
  {
    ShiftByParity(s);
  }

  lemma FirstBit(s: bv32)
    ensures Bits(s, 32)[0] == Odd(s)
  {
    hide Odd;
    hide Half;
  }

  lemma OnlyLowBit(s: bv32, w: bv32)
    ensures Half(Sum(s, Low(w))) == Half(s)
    ensures Odd(Sum(s, Low(w))) == (Odd(s) != Odd(w))
  {
    LowHasNoHalf(w);
    HalfOfSum(s, Low(w));
    OddSum(s, Low(w));
    SumWithZero(Half(s));
    hide Sum;
    hide Half;
    hide Odd;
    hide Low;
  }

  lemma LowHasNoHalf(w: bv32)
    ensures Half(Low(w)) == 0 && Odd(Low(w)) == Odd(w)
  {
  }

  lemma BitsOfShift(s: bv32, w: bv32)
    ensures Bits(Shift(Sum(s, Low(w))), 32) == Fed(Bits(s, 32), Odd(w))
  {
    hide Bits;
    hide Shift;
    hide Sum;
    hide Low;
    hide Half;
    hide Odd;
    hide Generator;
    var t := Sum(s, Low(w));
    FirstBit(s);
    OnlyLowBit(s, w);
    ShiftOf(t);
    BitsOfHalf(s);
    BitsOfGenerator();
    BitsOfSum(Half(s), POLYNOMIAL, 32);
  }

  lemma LowAndRest(w: bv32)
    ensures Sum(Low(w), Rest(w)) == w
  {
  }

  lemma RestIsEven(w: bv32)
    ensures Half(Rest(w)) == Half(w) && !Odd(Rest(w))
  {
  }

  lemma ShiftOfParts(s: bv32, w: bv32)
    ensures Shift(Sum(s, w)) == Sum(Shift(Sum(s, Low(w))), Half(w))
  {
    LowAndRest(w);
    SumAssociates(s, Low(w), Rest(w));
    ShiftOfSum(Sum(s, Low(w)), Rest(w));
    RestIsEven(w);
    ShiftOf(Rest(w));
    hide Sum;
    hide Shift;
    hide Low;
    hide Rest;
    hide Half;
    hide Odd;
  }

  // A byte that is added at once is the same as its bits one after the other.
  lemma {:induction false} BitsOfShifts(s: bv32, w: bv32, n: nat)
    requires Down(w, n) == 0
    ensures Bits(Shifts(Sum(s, w), n), 32) == FedAll(Bits(s, 32), Bits(w, n))
    decreases n
  {
    hide Bits;
    hide Shift;
    hide Sum;
    hide Low;
    hide Half;
    hide Odd;
    hide Fed;
    if n == 0 {
      NoBits(w);
      SumWithZero(s);
    } else {
      var t := Shift(Sum(s, Low(w)));
      ShiftOfParts(s, w);
      BitsOfShift(s, w);
      BitsOfShifts(t, Half(w), n - 1);
      MoreBits(w, n);
    }
  }

  lemma ByteIsSmall(d: bv8)
    ensures Down(Wide(d), 8) == 0
  {
    hide Down;
    WideIsByte(d);
    DownIsMonotone(Wide(d), 0xff, 8);
    FourDown(0xff, 0xf, 4);
    FourDown(0xf, 0, 0);
    NothingDown();
    OnlyZero(Down(Wide(d), 8));
  }

  lemma NothingDown()
    ensures Down(0, 0) == 0
  {
  }

  lemma WideIsByte(d: bv8)
    ensures AtMost(Wide(d), 0xff)
  {
  }

  lemma {:induction false} BitsOfRegister(c: bv32, data: seq<bv8>)
    ensures Bits(Register(c, data), 32) == FedAll(Bits(c, 32), MessageBits(data))
    decreases |data|
  {
    hide Bits;
    hide Shifts;
    hide Wide;
    hide Sum;
    hide Fed;
    if data != [] {
      var d := Wide(data[0]);
      ByteIsSmall(data[0]);
      BitsOfShifts(c, d, 8);
      BitsOfRegister(Shifts(Sum(c, d), 8), data[1..]);
      FedAppend(Bits(c, 32), Bits(d, 8), MessageBits(data[1..]));
    }
  }

  lemma ComplementIsSum(c: bv32)
    ensures Complement(c) == Sum(c, 0xffff_ffff)
  {
  }

  // The first 32 bits of the message are complemented, the message is multiplied by x^32 and divided by the generating
  // polynomial, and the remainder is complemented.
  lemma FcsIsRemainder(data: seq<bv8>)
    ensures Bits(Fcs(data), 32) == Xor(Remainder(Changed(Ones(32), MessageBits(data) + Zeros(32))), Ones(32))
  {
    hide Bits;
    hide Register;
    var r := Register(0xffff_ffff, data);
    BitsOfRegister(0xffff_ffff, data);
    BitsOfOnes();
    RegisterIsRemainder(Ones(32), MessageBits(data));
    ComplementIsSum(r);
    BitsOfSum(r, 0xffff_ffff, 32);
    hide Sum;
  }

  // The empty message has the check sequence 0, and a leading zero is always noticed.
  lemma EmptyFrame()
    ensures Fcs([]) == 0
  {
  }

  lemma RegisterOfZero(frame: seq<bv8>)
    ensures Register(0xffff_ffff, [0] + frame) == Register(0x2dfd_1072, frame)
  {
    hide Shifts;
    assert ([0] + frame)[0] == 0 && ([0] + frame)[1..] == frame;
    assert Sum(0xffff_ffff, Wide(0)) == 0xffff_ffff;
    FourShifts(0xffff_ffff, 0x9247_7cdf, 0xa49b_3d4f, 0xbff5_1d87, 0xb242_0de3);
    FourShifts(0xb242_0de3, 0xb499_85d1, 0xb7f4_41c8, 0x5bfa_20e4, 0x2dfd_1072);
    ShiftsAdd(0xffff_ffff, 4, 4);
  }

  lemma LeadingZeroIsNoticed(frame: seq<bv8>)
    ensures Fcs([0] + frame) != Fcs(frame)
  {
    hide Register;
    RegisterOfZero(frame);
    if Fcs([0] + frame) == Fcs(frame) {
      SameComplement(Register(0xffff_ffff, [0] + frame), Register(0xffff_ffff, frame));
      RegisterIsInjective(0x2dfd_1072, 0xffff_ffff, frame);
    }
  }
}
