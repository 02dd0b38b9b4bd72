/** What the Modbus CRC means: arithmetic of polynomials over GF(2). */
module CrcPolynomial {
  import opened Crc

  // A polynomial is the set of the positions of its non-zero coefficients, counted from the leading one in the order
  // the bits travel on the line (a byte goes least significant bit first). Adding polynomials is symmetric difference.
  type Poly = set<nat>

  // x^16 + x^15 + x^2 + 1, counted from x^16
  const GENERATOR: Poly := {0, 1, 14, 16}

  // Coefficient k of the product: the parity of the number of pairs of terms that meet there.
  predicate ProductAt(p: Poly, q: Poly, k: nat) {
    |Meeting(p, q, k)| % 2 == 1
  }

  function Meeting(p: Poly, q: Poly, k: nat): (terms: Poly)
    ensures forall i: nat :: i in terms <==> i in p && k >= i && k - i in q
  {
    set i: nat | i in p && k >= i && k - i in q
  }

  ghost predicate Divisible(p: Poly) {
    exists q: Poly :: IsProduct(p, q)
  }

  ghost predicate IsProduct(p: Poly, q: Poly) {
    forall k: nat :: k in p <==> ProductAt(q, GENERATOR, k)
  }

  predicate Odd(c: bv16) {
    c & 0x0001 != 0
  }

  // Bit i of a word, bit 0 the least significant one.
  predicate Bit(c: bv16, i: nat)
    decreases i
  {
    if i == 0 then Odd(c) else Bit(c >> 1, i - 1)
  }

  // Bit k of a byte string in the order the bits are sent.
  predicate BitAt(data: seq<byte>, k: nat)
    requires k < 8 * |data|
  {
    Bit(data[k / 8] as bv16, k % 8)
  }

  // The frame as a polynomial, with the initial register value added to its leading terms.
  function Frame(frame: seq<byte>): (p: Poly)
    ensures forall k: nat :: k in p <==> k < 8 * |frame| && BitAt(frame, k) != (k < 16)
  {
    set k: nat | k < 8 * |frame| && BitAt(frame, k) != (k < 16)
  }

  // ---- words and their bits ----

  function Drop(c: bv16, n: nat): bv16
    decreases n
  {
    if n == 0 then c else Drop(c >> 1, n - 1)
  }

  lemma DropFour(c: bv16, n: nat)
    ensures Drop(c, n + 4) == Drop(c >> 1 >> 1 >> 1 >> 1, n)
  {
    calc {
      Drop(c, n + 4);
      Drop(c >> 1, n + 3);
      Drop(c >> 1 >> 1, n + 2);
      Drop(c >> 1 >> 1 >> 1, n + 1);
      Drop(c >> 1 >> 1 >> 1 >> 1, n);
    }
  }

  lemma DropEight(c: bv16, n: nat)
    ensures Drop(c, n + 8) == Drop(c >> 8, n)
  {
    var c4 := c >> 1 >> 1 >> 1 >> 1;
    DropFour(c, n + 4);
    DropFour(c4, n);
    assert c4 >> 1 >> 1 >> 1 >> 1 == c >> 8;
  }

  lemma DropAll(c: bv16)
    ensures Drop(c, 16) == 0
  {
    DropEight(c, 8);
    DropEight(c >> 8, 0);
    assert c >> 8 >> 8 == 0;
  }

  lemma {:induction false} DropSnoc(c: bv16, n: nat)
    ensures Drop(c, n + 1) == Drop(c, n) >> 1
    decreases n
  {
    if n == 0 {
    } else {
      DropSnoc(c >> 1, n - 1);
    }
  }

  lemma {:induction false} BitIsOddDrop(c: bv16, i: nat)
    ensures Bit(c, i) == Odd(Drop(c, i))
    decreases i
  {
    if i == 0 {
    } else {
      BitIsOddDrop(c >> 1, i - 1);
    }
  }

  lemma {:induction false} BitOfZero(i: nat)
    ensures !Bit(0, i)
  {
    if i == 0 {
    } else {
      BitOfZero(i - 1);
    }
  }

  lemma BitShiftedByte(c: bv16, i: nat)
    ensures Bit(c, i + 8) == Bit(c >> 8, i)
  {
    BitIsOddDrop(c, i + 8);
    BitIsOddDrop(c >> 8, i);
    DropEight(c, i);
  }

  lemma {:induction false} BitXor(a: bv16, b: bv16, i: nat)
    ensures Bit(a ^ b, i) == (Bit(a, i) != Bit(b, i))
    decreases i
  {
    assert (a ^ b) >> 1 == (a >> 1) ^ (b >> 1) && Odd(a ^ b) == (Odd(a) != Odd(b));
    if i == 0 {
    } else {
      BitXor(a >> 1, b >> 1, i - 1);
    }
  }

  lemma {:induction false} BitsDetermine(a: bv16, b: bv16, n: nat)
    requires Drop(a, n) == Drop(b, n) == 0 && forall i: nat :: i < n ==> Bit(a, i) == Bit(b, i)
    ensures a == b
    decreases n
  {
    if n == 0 {
    } else {
      var halfA, halfB := a >> 1, b >> 1;
      forall i: nat | i < n - 1 ensures Bit(halfA, i) == Bit(halfB, i) {
        assert Bit(a, i + 1) == Bit(b, i + 1);
      }
      assert Bit(a, 0) == Bit(b, 0);
      BitsDetermine(halfA, halfB, n - 1);
      assert a == b;
    }
  }

  // The taps of 0xA001 are the terms of the generator below the leading one.
  lemma Taps(i: nat)
    requires i < 16
    ensures Bit(0xA001, i) == (i + 1 in GENERATOR)
  {
    BitIsOddDrop(0xA001, i);
    assert Drop(0xA001, 1) == 0x5000 && Drop(0xA001, 2) == 0x2800 && Drop(0xA001, 3) == 0x1400;
    DropFour(0xA001, 0);
    DropFour(0x0A00, 0);
    DropFour(0x00A0, 0);
    if i >= 12 {
      DropFour(0xA001, i - 4);
      DropFour(0x0A00, i - 8);
      DropFour(0x00A0, i - 12);
    } else if i >= 8 {
      DropFour(0xA001, i - 4);
      DropFour(0x0A00, i - 8);
    } else if i >= 4 {
      DropFour(0xA001, i - 4);
    }
  }

  lemma ShiftBit(c: bv16, i: nat)
    requires i < 16
    ensures Bit(Shift(c), i) == ((i < 15 && Bit(c, i + 1)) != (Odd(c) && i + 1 in GENERATOR))
  {
    assert Bit(c >> 1, i) == Bit(c, i + 1);
    BitIsOddDrop(c, 16);
    DropAll(c);
    Taps(i);
    BitXor(c >> 1, 0xA001, i);
  }

  // ---- products with the generator ----

  predicate TimesGeneratorAt(q: Poly, k: nat) {
    (((k in q) != (k >= 1 && k - 1 in q)) != (k >= 14 && k - 14 in q)) != (k >= 16 && k - 16 in q)
  }

  // The generator has four terms, so at most four terms of q meet at one position.
  lemma FourTermsMeet(q: Poly, k: nat)
    ensures ProductAt(q, GENERATOR, k) == TimesGeneratorAt(q, k)
  {
    var a, b, c, d := Term(q, k, 0), Term(q, k, 1), Term(q, k, 14), Term(q, k, 16);
    TermsCover(q, k, a, b, c, d);
    FourSizes(a, b, c, d);
  }

  lemma FourSizes(a: Poly, b: Poly, c: Poly, d: Poly)
    requires a !! b && a + b !! c && a + b + c !! d
    requires |a| <= 1 && |b| <= 1 && |c| <= 1 && |d| <= 1
    ensures |a + b + c + d| % 2 == 1 <==> (((|a| == 1) != (|b| == 1)) != (|c| == 1)) != (|d| == 1)
  {
    assert |a + b + c + d| == |a| + |b| + |c| + |d|;
    ParityOfFour(|a|, |b|, |c|, |d|);
  }

  lemma ParityOfFour(a: nat, b: nat, c: nat, d: nat)
    requires a <= 1 && b <= 1 && c <= 1 && d <= 1
    ensures (a + b + c + d) % 2 == 1 <==> (((a == 1) != (b == 1)) != (c == 1)) != (d == 1)
  {
  }

  lemma TermsCover(q: Poly, k: nat, a: Poly, b: Poly, c: Poly, d: Poly)
    requires a == Term(q, k, 0) && b == Term(q, k, 1) && c == Term(q, k, 14) && d == Term(q, k, 16)
    ensures Meeting(q, GENERATOR, k) == a + b + c + d
  {
    forall i: nat ensures i in Meeting(q, GENERATOR, k) <==> i in a + b + c + d {
      if k >= i {
        assert k - i in GENERATOR <==> k == i || k == i + 1 || k == i + 14 || k == i + 16;
      }
    }
  }

  function Term(q: Poly, k: nat, g: nat): (t: Poly)
    ensures |t| == if k >= g && k - g in q then 1 else 0
    ensures forall i: nat :: i in t <==> i in q && i + g == k
  {
    if k >= g && k - g in q then {k - g} else {}
  }

  lemma DisjointSize(a: Poly, b: Poly)
    requires a !! b
    ensures |a + b| == |a| + |b|
  {
  }

  // ---- the register while a message goes through bit by bit ----

  function Feed(c: bv16, bit: bool): bv16 {
    if bit then Shift(c ^ 1) else Shift(c)
  }

  function RegisterAt(c: bv16, data: seq<byte>, n: nat): bv16
    requires n <= 8 * |data|
    decreases n
  {
    if n == 0 then c else Feed(RegisterAt(c, data, n - 1), BitAt(data, n - 1))
  }

  predicate QuotientBit(c: bv16, data: seq<byte>, j: nat)
    requires j < 8 * |data|
  {
    Odd(RegisterAt(c, data, j)) != BitAt(data, j)
  }

  function Quotient(c: bv16, data: seq<byte>, n: nat): (q: Poly)
    requires n <= 8 * |data|
    ensures forall j: nat :: j in q <==> j < n && QuotientBit(c, data, j)
  {
    set j: nat | j < n && QuotientBit(c, data, j)
  }

  // The first n message bits, with the initial register value added to the leading terms.
  predicate DividendAt(c: bv16, data: seq<byte>, n: nat, k: nat)
    requires n <= 8 * |data|
  {
    (k < 16 && Bit(c, k)) != (k < n && BitAt(data, k))
  }

  predicate RemainderAt(c: bv16, n: nat, k: nat) {
    n <= k < n + 16 && Bit(c, k - n)
  }

  // Invariant of the bit loop: dividend = quotient * generator + register.
  lemma {:induction false} DivisionInvariant(c: bv16, data: seq<byte>, n: nat, k: nat)
    requires n <= 8 * |data|
    ensures DividendAt(c, data, n, k) ==
            (TimesGeneratorAt(Quotient(c, data, n), k) != RemainderAt(RegisterAt(c, data, n), n, k))
    decreases n
  {
    hide Bit, BitAt, Odd, Feed, Quotient;
    if n == 0 {
    } else {
      DivisionInvariant(c, data, n - 1, k);
      RegisterStep(RegisterAt(c, data, n - 1), BitAt(data, n - 1), n - 1, k);
      TimesGeneratorNext(Quotient(c, data, n - 1), Quotient(c, data, n), n - 1, k);
    }
  }

  lemma RegisterStep(r: bv16, bit: bool, n: nat, k: nat)
    ensures RemainderAt(Feed(r, bit), n + 1, k) ==
            ((RemainderAt(r, n, k) != (k == n && bit)) !=
             ((Odd(r) != bit) && k >= n && k - n in GENERATOR))
  {
    var r' := Feed(r, bit);
    if n < k <= n + 16 {
      var i := k - n - 1;
      FeedBit(r, bit, i);
      assert RemainderAt(r', n + 1, k) == Bit(r', i);
      assert RemainderAt(r, n, k) == (i < 15 && Bit(r, i + 1));
    } else if k == n {
      assert RemainderAt(r, n, k) == Bit(r, 0) == Odd(r);
    }
  }

  lemma FeedBit(r: bv16, bit: bool, i: nat)
    requires i < 16
    ensures Bit(Feed(r, bit), i) ==
            ((i < 15 && Bit(r, i + 1)) != ((Odd(r) != bit) && i + 1 in GENERATOR))
  {
    if bit {
      assert Odd(r ^ 1) == !Odd(r) && (r ^ 1) >> 1 == r >> 1;
      ShiftBitVia(r, r ^ 1, Feed(r, bit), i);
    } else {
      ShiftBit(r, i);
    }
  }

  lemma ShiftBitVia(r: bv16, x: bv16, y: bv16, i: nat)
    requires i < 16 && x >> 1 == r >> 1 && y == Shift(x)
    ensures Bit(y, i) == ((i < 15 && Bit(r, i + 1)) != (Odd(x) && i + 1 in GENERATOR))
  {
    ShiftBit(x, i);
    SameHalf(r, x, i);
  }

  lemma SameHalf(a: bv16, b: bv16, i: nat)
    requires a >> 1 == b >> 1
    ensures Bit(a, i + 1) == Bit(b, i + 1)
  {
  }

  lemma TimesGeneratorNext(q: Poly, q': Poly, n: nat, k: nat)
    requires forall j :: j in q ==> j < n
    requires q' == q || q' == q + {n}
    ensures TimesGeneratorAt(q', k) ==
            (TimesGeneratorAt(q, k) != (n in q' && k >= n && k - n in GENERATOR))
  {
  }

  // ---- bits against bytes ----

  function Plus(a: bv16, b: bv16): bv16 {
    a ^ b
  }

  // Within a byte, the bits still to come can be added to the register in advance.
  lemma {:induction false} ByteProgress(c: bv16, data: seq<byte>, j: nat, t: nat)
    requires j < |data| && t <= 8
    ensures Shifts(Plus(RegisterAt(c, data, 8 * j + t), Drop(data[j] as bv16, t)), 8 - t) ==
            Shifts(Plus(RegisterAt(c, data, 8 * j), data[j] as bv16), 8)
    decreases t
  {
    hide Feed, Shift, Plus, Bit, Odd;
    if t == 0 {
      assert Drop(data[j] as bv16, 0) == data[j] as bv16;
    } else {
      var b := data[j] as bv16;
      ByteProgress(c, data, j, t - 1);
      NextBit(data, j, t - 1);
      DropSnoc(b, t - 1);
      AddAhead(RegisterAt(c, data, 8 * j + t - 1), RegisterAt(c, data, 8 * j + t),
               Drop(b, t - 1), Drop(b, t), BitAt(data, 8 * j + t - 1), 8 - t);
    }
  }

  lemma NextBit(data: seq<byte>, j: nat, t: nat)
    requires j < |data| && t < 8
    ensures BitAt(data, 8 * j + t) == Odd(Drop(data[j] as bv16, t))
  {
    BitIsOddDrop(data[j] as bv16, t);
    BitInByte(data, j, t);
  }

  lemma BitInByte(data: seq<byte>, j: nat, t: nat)
    requires j < |data| && t < 8
    ensures BitAt(data, 8 * j + t) == Bit(data[j] as bv16, t)
  {
    assert (8 * j + t) / 8 == j && (8 * j + t) % 8 == t;
  }

  lemma AddAhead(r: bv16, r': bv16, d: bv16, d': bv16, bit: bool, n: nat)
    requires bit == Odd(d) && r' == Feed(r, bit) && d' == d >> 1
    ensures Shifts(Plus(r, d), n + 1) == Shifts(Plus(r', d'), n)
  {
    Split(r, d, bit);
  }

  lemma Split(c: bv16, x: bv16, bit: bool)
    requires bit == Odd(x)
    ensures Shift(Plus(c, x)) == Plus(Feed(c, bit), x >> 1)
  {
    if x & 0x0001 == 0 {
      SplitEven(c, x);
    } else {
      SplitOdd(c, x);
    }
  }

  lemma SplitEven(c: bv16, x: bv16)
    requires x & 0x0001 == 0
    ensures Shift(Plus(c, x)) == Plus(Shift(c), x >> 1)
  {
    assert Shift(c ^ x) == Shift(c) ^ (x >> 1);
  }

  lemma SplitOdd(c: bv16, x: bv16)
    requires x & 0x0001 != 0
    ensures Shift(Plus(c, x)) == Plus(Shift(c ^ 1), x >> 1)
  {
    assert Shift(c ^ x) == Shift(c ^ 1) ^ (x >> 1);
  }

  lemma {:induction false} RegisterIsBitwise(c: bv16, data: seq<byte>, j: nat)
    requires j <= |data|
    ensures RegisterAt(c, data, 8 * j) == Register(c, data[..j])
    decreases j
  {
    hide AddByte, Feed, Bit;
    if j == 0 {
    } else {
      RegisterIsBitwise(c, data, j - 1);
      ByteIsBitwise(c, data, j - 1);
      assert data[..j] == data[..j - 1] + [data[j - 1]];
      RegisterAppend(c, data[..j - 1], [data[j - 1]]);
    }
  }

  lemma ByteIsBitwise(c: bv16, data: seq<byte>, j: nat)
    requires j < |data|
    ensures RegisterAt(c, data, 8 * j + 8) == AddByte(RegisterAt(c, data, 8 * j), data[j])
  {
    ByteProgress(c, data, j, 8);
    DropEight(data[j] as bv16, 0);
    ByteHasEightBits(data[j], RegisterAt(c, data, 8 * j + 8));
  }

  lemma ByteHasEightBits(b: byte, r: bv16)
    ensures (b as bv16) >> 8 == 0 && Plus(r, 0) == r
  {
  }

  ghost predicate IsDivision(c: bv16, data: seq<byte>, q: Poly) {
    var n := 8 * |data|;
    && (forall j :: j in q ==> j < n)
    && (forall k: nat :: DividendAt(c, data, n, k) ==
                         (ProductAt(q, GENERATOR, k) != RemainderAt(Register(c, data), n, k)))
  }

  // x^16 * message + initial value = quotient * generator + CRC, with the leading
  // coefficient of the CRC in its least significant bit.
  lemma CrcIsRemainder(c: bv16, data: seq<byte>)
    ensures exists q: Poly :: IsDivision(c, data, q)
  {
    var n := 8 * |data|;
    var q := Quotient(c, data, n);
    RegisterIsBitwise(c, data, |data|);
    assert data[..|data|] == data;
    forall k: nat
      ensures DividendAt(c, data, n, k) ==
              (ProductAt(q, GENERATOR, k) != RemainderAt(Register(c, data), n, k))
    {
      DivisionInvariant(c, data, n, k);
      FourTermsMeet(q, k);
    }
    assert IsDivision(c, data, q);
  }

  // ---- the CRC carried by a frame ----

  // The CRC bytes carry the CRC's bits in the order the register holds them.
  lemma ReceivedBit(lo: byte, hi: byte, i: nat)
    requires i < 16
    ensures Bit(Received(lo, hi), i) == if i < 8 then Bit(lo as bv16, i) else Bit(hi as bv16, i - 8)
  {
    if i < 8 {
      var high := (hi as bv16) << 8;
      assert Received(lo, hi) == (lo as bv16) ^ high;
      BitXor(lo as bv16, high, i);
      LowBitsClear(high, i);
    } else {
      BitShiftedByte(Received(lo, hi), i - 8);
      assert Received(lo, hi) >> 8 == hi as bv16;
    }
  }

  lemma LowBitsClear(c: bv16, i: nat)
    requires c & 0x00FF == 0 && i < 8
    ensures !Bit(c, i)
  {
    BitAnd(c, 0x00FF, i);
    BitOfZero(i);
    ByteOfOnes(i);
  }

  lemma ByteOfOnes(i: nat)
    requires i < 8
    ensures Bit(0x00FF, i)
  {
    BitIsOddDrop(0x00FF, i);
    assert Drop(0x00FF, 1) == 0x007F && Drop(0x00FF, 2) == 0x003F && Drop(0x00FF, 3) == 0x001F;
    if i >= 4 {
      DropFour(0x00FF, i - 4);
      assert Drop(0x000F, 1) == 0x0007 && Drop(0x000F, 2) == 0x0003 && Drop(0x000F, 3) == 0x0001;
    }
  }

  lemma {:induction false} BitAnd(a: bv16, b: bv16, i: nat)
    ensures Bit(a & b, i) == (Bit(a, i) && Bit(b, i))
    decreases i
  {
    HalfAnd(a, b);
    if i == 0 {
    } else {
      BitAnd(a >> 1, b >> 1, i - 1);
    }
  }

  lemma HalfAnd(a: bv16, b: bv16)
    ensures (a & b) >> 1 == (a >> 1) & (b >> 1) && Odd(a & b) == (Odd(a) && Odd(b))
  {
  }

  lemma ResetBit(i: nat)
    requires i < 16
    ensures Bit(RESET, i)
  {
    if i < 8 {
      ByteOfOnes(i);
      LowBitsClear(0xFF00, i);
      BitXor(0xFF00, 0x00FF, i);
      assert 0xFF00 ^ 0x00FF == RESET;
    } else {
      BitShiftedByte(RESET, i - 8);
      ByteOfOnes(i - 8);
    }
  }

  // ---- frames ----

  // The accepted frames are the multiples of the generator.
  lemma SealedIffDivisible(frame: seq<byte>)
    requires |frame| >= 2
    ensures Sealed(frame) <==> Divisible(Frame(frame))
  {
    var n := |frame| - 2;
    var payload := frame[..n];
    var received := Received(frame[n], frame[n + 1]);
    CrcIsRemainder(RESET, payload);
    var q :| IsDivision(RESET, payload, q);
    forall k: nat
      ensures k in Frame(frame) <==>
              (ProductAt(q, GENERATOR, k) != (RemainderAt(Of(payload), 8 * n, k) != RemainderAt(received, 8 * n, k)))
    {
      FrameBit(frame, k);
    }
    if Sealed(frame) {
      assert IsProduct(Frame(frame), q);
    }
    if Divisible(Frame(frame)) {
      var q' :| IsProduct(Frame(frame), q');
      QuotientUnique(Frame(frame), q', q, 8 * n);
      forall i: nat | i < 16 ensures Bit(Of(payload), i) == Bit(received, i) {
        var k := 8 * n + i;
        assert k in Frame(frame) <==> ProductAt(q', GENERATOR, k);
        assert RemainderAt(received, 8 * n, k) == Bit(received, i);
        assert RemainderAt(Of(payload), 8 * n, k) == Bit(Of(payload), i);
      }
      DropAll(Of(payload));
      DropAll(received);
      BitsDetermine(Of(payload), received, 16);
    }
  }

  lemma FrameBit(frame: seq<byte>, k: nat)
    requires |frame| >= 2
    ensures var n := |frame| - 2;
            k in Frame(frame) <==>
            (DividendAt(RESET, frame[..n], 8 * n, k) != RemainderAt(Received(frame[n], frame[n + 1]), 8 * n, k))
  {
    hide Bit, BitAt, Received, Frame;
    var n := |frame| - 2;
    if k < 8 * n {
      PrefixBit(frame, n, k);
    }
    if k < 16 {
      ResetBit(k);
    }
    if 8 * n <= k < 8 * n + 16 {
      ReceivedBit(frame[n], frame[n + 1], k - 8 * n);
      if k < 8 * n + 8 {
        BitInByte(frame, n, k - 8 * n);
      } else {
        BitInByte(frame, n + 1, k - 8 * n - 8);
      }
    }
  }

  lemma PrefixBit(frame: seq<byte>, n: nat, k: nat)
    requires n <= |frame| && k < 8 * n
    ensures BitAt(frame[..n], k) == BitAt(frame, k)
  {
    hide Bit;
  }

  // Two quotients that agree with the dividend up to the remainder's place are the same.
  lemma QuotientUnique(p: Poly, q': Poly, q: Poly, n: nat)
    requires IsProduct(p, q') && forall k :: k in p ==> k < n + 16
    requires forall j :: j in q ==> j < n
    requires forall k: nat :: k < n ==> (k in p <==> ProductAt(q, GENERATOR, k))
    ensures q' == q
  {
    forall j | j in q'
      ensures j < n
    {
      var last := LastTerm(q', j);
    }
    forall j: nat ensures j in q' <==> j in q {
      QuotientBitsUnique(p, q', q, n, j);
    }
  }

  lemma {:induction false} QuotientBitsUnique(p: Poly, q': Poly, q: Poly, n: nat, j: nat)
    requires IsProduct(p, q') && (forall k :: k in q' || k in q ==> k < n)
    requires forall k: nat :: k < n ==> (k in p <==> ProductAt(q, GENERATOR, k))
    ensures j in q' <==> j in q
  {
    if j == n {
    } else {
      FourTermsMeet(q, j);
      FourTermsMeet(q', j);
      if j >= 1 { QuotientBitsUnique(p, q', q, n, j - 1); }
      if j >= 14 { QuotientBitsUnique(p, q', q, n, j - 14); }
      if j >= 16 { QuotientBitsUnique(p, q', q, n, j - 16); }
    }
  }

  lemma {:induction false} LastTerm(q: Poly, j: nat) returns (m: nat)
    requires j in q
    ensures m in q && m >= j && ProductAt(q, GENERATOR, m + 16)
    decreases |Above(q, j)|
  {
    if i :| i in q && i > j {
      assert i in Above(q, j);
      SmallerSet(Above(q, i), Above(q, j));
      m := LastTerm(q, i);
    } else {
      m := j;
      FourTermsMeet(q, m + 16);
    }
  }

  function Above(q: Poly, j: nat): (r: Poly)
    ensures forall i: nat :: i in r <==> i in q && i > j
  {
    set i: nat | i in q && i > j
  }

  lemma SmallerSet(a: Poly, b: Poly)
    requires a < b
    ensures |a| < |b|
  {
    assert b == a + (b - a);
    assert |b - a| > 0;
  }

  lemma {:induction false} FirstTerm(q: Poly, j: nat) returns (m: nat)
    requires j in q
    ensures m in q && m <= j && ProductAt(q, GENERATOR, m)
  {
    if i :| i in q && i < j {
      m := FirstTerm(q, i);
    } else {
      m := j;
      FourTermsMeet(q, m);
    }
  }

  // ---- error detection ----

  function SymmetricDifference(a: Poly, b: Poly): (r: Poly)
    ensures forall k: nat :: k in r <==> (k in a) != (k in b)
  {
    (a - b) + (b - a)
  }

  // The received frame is the sent one with exactly the bits of errors flipped.
  ghost predicate Flipped(sent: seq<byte>, received: seq<byte>, errors: Poly) {
    && |received| == |sent|
    && (forall k :: k in errors ==> k < 8 * |sent|)
    && (forall k: nat :: k < 8 * |sent| ==> BitAt(received, k) == (BitAt(sent, k) != (k in errors)))
  }

  // Exactly the error patterns divisible by the generator pass unnoticed.
  lemma ErrorsPassIffDivisible(sent: seq<byte>, received: seq<byte>, errors: Poly)
    requires Sealed(sent) && Flipped(sent, received, errors)
    ensures Sealed(received) <==> Divisible(errors)
  {
    SealedIffDivisible(sent);
    SealedIffDivisible(received);
    assert Frame(received) == SymmetricDifference(Frame(sent), errors);
    assert errors == SymmetricDifference(Frame(sent), Frame(received));
    if Divisible(errors) {
      SumDivisible(Frame(sent), errors);
    }
    if Sealed(received) {
      SumDivisible(Frame(sent), Frame(received));
    }
  }

  lemma SumDivisible(a: Poly, b: Poly)
    requires Divisible(a) && Divisible(b)
    ensures Divisible(SymmetricDifference(a, b))
  {
    var p :| IsProduct(a, p);
    var q :| IsProduct(b, q);
    var sum := SymmetricDifference(p, q);
    forall k: nat
      ensures k in SymmetricDifference(a, b) <==> ProductAt(sum, GENERATOR, k)
    {
      FourTermsMeet(p, k);
      FourTermsMeet(q, k);
      FourTermsMeet(sum, k);
    }
    assert IsProduct(SymmetricDifference(a, b), sum);
  }

  predicate Within(p: Poly, start: nat, width: nat) {
    forall k :: k in p ==> start <= k < start + width
  }

  // Flipping bits that all lie within 16 consecutive ones is always noticed.
  lemma BurstDetected(sent: seq<byte>, received: seq<byte>, errors: Poly, start: nat)
    requires Sealed(sent) && Flipped(sent, received, errors)
    requires errors != {} && Within(errors, start, 16)
    ensures !Sealed(received)
  {
    ErrorsPassIffDivisible(sent, received, errors);
    if Divisible(errors) {
      var q :| IsProduct(errors, q);
      var k :| k in errors;
      FourTermsMeet(q, k);
      var j :| j in q;
      var first := FirstTerm(q, j);
      var last := LastTerm(q, j);
    }
  }

  // The bound is sharp: some patterns 17 bits wide pass.
  lemma BurstBoundIsSharp(start: nat)
    ensures exists errors: Poly :: errors != {} && Within(errors, start, 17) && Divisible(errors)
  {
    var errors: Poly := {start, start + 1, start + 14, start + 16};
    forall k: nat ensures k in errors <==> ProductAt({start}, GENERATOR, k) {
      RemoveTerm({start}, start, k);
      FourTermsMeet({}, k);
      assert {start} - {start} == {};
    }
    assert IsProduct(errors, {start});
    assert errors != {} && Within(errors, start, 17) && Divisible(errors);
  }

  // Flipping an odd number of bits is always noticed.
  lemma OddErrorsDetected(sent: seq<byte>, received: seq<byte>, errors: Poly)
    requires Sealed(sent) && Flipped(sent, received, errors) && |errors| % 2 == 1
    ensures !Sealed(received)
  {
    ErrorsPassIffDivisible(sent, received, errors);
    if Divisible(errors) {
      var q :| IsProduct(errors, q);
      MultipleHasEvenWeight(errors, q);
    }
  }

  lemma {:induction false} MultipleHasEvenWeight(p: Poly, q: Poly)
    requires IsProduct(p, q)
    ensures |p| % 2 == 0
    decreases |q|
  {
    hide *;
    if q == {} {
      NoTerms(p);
    } else {
      var j :| j in q;
      var copy: Poly := {j, j + 1, j + 14, j + 16};
      RemoveProduct(p, q, j);
      MultipleHasEvenWeight(SymmetricDifference(p, copy), q - {j});
      SymmetricDifferenceSize(p, copy);
      assert |{j, j + 1, j + 14, j + 16}| == 4;
    }
  }

  // Taking one term out of the quotient takes its four terms out of the product.
  lemma RemoveProduct(p: Poly, q: Poly, j: nat)
    requires IsProduct(p, q) && j in q
    ensures IsProduct(SymmetricDifference(p, {j, j + 1, j + 14, j + 16}), q - {j})
  {
    hide ProductAt;
    var copy: Poly := {j, j + 1, j + 14, j + 16};
    forall k: nat ensures k in SymmetricDifference(p, copy) <==> ProductAt(q - {j}, GENERATOR, k) {
      RemoveTerm(q, j, k);
    }
  }

  lemma NoTerms(p: Poly)
    requires IsProduct(p, {})
    ensures p == {}
  {
    forall k: nat ensures k !in p {
      FourTermsMeet({}, k);
    }
  }

  lemma RemoveTerm(q: Poly, j: nat, k: nat)
    requires j in q
    ensures ProductAt(q, GENERATOR, k) ==
            (ProductAt(q - {j}, GENERATOR, k) != (k == j || k == j + 1 || k == j + 14 || k == j + 16))
  {
    FourTermsMeet(q, k);
    FourTermsMeet(q - {j}, k);
  }

  lemma SymmetricDifferenceSize(a: Poly, b: Poly)
    ensures |SymmetricDifference(a, b)| + 2 * |a * b| == |a| + |b|
  {
    assert a == (a - b) + (a * b);
    assert b == (b - a) + (a * b);
    DisjointSize(a - b, a * b);
    DisjointSize(b - a, a * b);
    DisjointSize(a - b, b - a);
  }

  // Running the register over the CRC bytes too leaves 0 exactly for the frame's own CRC.
  lemma ResidueZeroIffSealed(frame: seq<byte>)
    requires |frame| >= 2
    ensures Sealed(frame) <==> Of(frame) == 0
  {
    hide AddByte, Shifts, Plus, Received;
    var n := |frame| - 2;
    var lo, hi := frame[n], frame[n + 1];
    var c := Of(frame[..n]);
    assert frame == frame[..n] + [lo, hi];
    RegisterAppend(RESET, frame[..n], [lo, hi]);
    assert [lo, hi][1..] == [hi] && [hi][1..] == [];
    assert Register(c, [lo, hi]) == Register(AddByte(c, lo), [hi]) == AddByte(AddByte(c, lo), hi);
    TwoBytes(c, lo, hi);
    ShiftsZero(Plus(c, Received(lo, hi)), 16);
    SumZero(c, Received(lo, hi));
  }

  lemma SumZero(a: bv16, b: bv16)
    ensures Plus(a, b) == 0 <==> a == b
  {
  }

  lemma {:induction false} ShiftsZero(c: bv16, n: nat)
    ensures Shifts(c, n) == 0 <==> c == 0
    decreases n
  {
    if n == 0 {
    } else {
      assert Shift(c) == 0 <==> c == 0;
      ShiftsZero(Shift(c), n - 1);
    }
  }

  lemma TwoBytes(c: bv16, lo: byte, hi: byte)
    ensures AddByte(AddByte(c, lo), hi) == Shifts(Plus(c, Received(lo, hi)), 16)
  {
    hide AddByte, Plus, Shifts, Received, Shift, Bit, Drop;
    var high := (hi as bv16) << 8;
    var sum := Plus(c, lo as bv16);
    SumOfBytes(c, lo, hi);
    AddByteIsSum(c, lo);
    AddByteIsSum(Shifts(sum, 8), hi);
    HighByteWaits(sum, hi);
    ShiftsAdd(Plus(sum, high), 8, 8);
  }

  lemma AddByteIsSum(c: bv16, b: byte)
    ensures AddByte(c, b) == Shifts(Plus(c, b as bv16), 8)
  {
  }

  lemma HighByteWaits(r: bv16, b: byte)
    ensures Shifts(Plus(r, (b as bv16) << 8), 8) == Plus(Shifts(r, 8), b as bv16)
  {
    hide Plus, Shifts, Shift, Bit;
    var high := (b as bv16) << 8;
    forall i: nat | i < 8 ensures !Bit(high, i) {
      LowBitsClear(high, i);
    }
    ShiftsOfSum(r, high, 8);
    DropEight(high, 0);
    assert high >> 8 == b as bv16;
  }

  lemma SumOfBytes(c: bv16, lo: byte, hi: byte)
    ensures Plus(c, Received(lo, hi)) == Plus(Plus(c, lo as bv16), (hi as bv16) << 8)
  {
  }

  lemma {:induction false} ShiftsAdd(c: bv16, m: nat, n: nat)
    ensures Shifts(c, m + n) == Shifts(Shifts(c, m), n)
    decreases m
  {
    if m == 0 {
    } else {
      ShiftsAdd(Shift(c), m - 1, n);
    }
  }

  // Bits that have not reached the end of the register yet pass through the shifts unchanged.
  lemma {:induction false} ShiftsOfSum(r: bv16, d: bv16, n: nat)
    requires forall i: nat :: i < n ==> !Bit(d, i)
    ensures Shifts(Plus(r, d), n) == Plus(Shifts(r, n), Drop(d, n))
    decreases n
  {
    if n == 0 {
    } else {
      assert !Bit(d, 0);
      var half := d >> 1;
      forall i: nat | i < n - 1 ensures !Bit(half, i) {
        assert !Bit(d, i + 1);
      }
      SplitEven(r, d);
      ShiftsOfSum(Shift(r), half, n - 1);
    }
  }
}
