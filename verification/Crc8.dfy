/** The Maxim/Dallas CRC8 of 1-Wire devices, x^8 + x^5 + x^4 + 1 (Maxim Application Note 27): the
    table form of the source, the shift register it stands for, and the errors it detects. */
module Crc8 {

  // ---------------------------------------------------------------- the shift register

  /** One shift of the reflected register without input. */
  function Shift(s: bv8): bv8 {
    if s & 1 == 1 then (s >> 1) ^ 0x8c else s >> 1
  }

  // Xor, Half and Low name bit operations so that proofs can keep them folded.
  function Xor(x: bv8, y: bv8): bv8 { x ^ y }

  function In(b: bool): bv8 { if b then 1 else 0 }

  /** One message bit, least significant bits first. */
  function Feed(s: bv8, b: bool): bv8 { Shift(Xor(s, In(b))) }

  function Bits(s: bv8, bits: seq<bool>): bv8
    decreases |bits|
  {
    if bits == [] then s else Bits(Feed(s, bits[0]), bits[1..])
  }

  function BitsOf(x: bv8): (b: seq<bool>)
    ensures |b| == 8
  {
    [x & 0x01 != 0, x & 0x02 != 0, x & 0x04 != 0, x & 0x08 != 0,
     x & 0x10 != 0, x & 0x20 != 0, x & 0x40 != 0, x & 0x80 != 0]
  }

  function Message(bytes: seq<bv8>): (b: seq<bool>)
    ensures |b| == 8 * |bytes|
  {
    if bytes == [] then [] else BitsOf(bytes[0]) + Message(bytes[1..])
  }

  // ---------------------------------------------------------------- the table form

  const CRC8_16L: seq<bv8> := [
    0x00, 0x5e, 0xbc, 0xe2, 0x61, 0x3f, 0xdd, 0x83,
    0xc2, 0x9c, 0x7e, 0x20, 0xa3, 0xfd, 0x1f, 0x41
  ]
  const CRC8_16H: seq<bv8> := [
    0x00, 0x9d, 0x23, 0xbe, 0x46, 0xdb, 0x65, 0xf8,
    0x8c, 0x11, 0xaf, 0x32, 0xca, 0x57, 0xe9, 0x74
  ]

  /** The register after eight shifts. */
  function Shift8(s: bv8): bv8 {
    Shift(Shift(Shift(Shift(Shift(Shift(Shift(Shift(s))))))))
  }

  /** The register after some bytes, each taken in at once. */
  function Crc(s: bv8, bytes: seq<bv8>): bv8
    decreases |bytes|
  {
    if bytes == [] then s else Crc(Shift8(s ^ bytes[0]), bytes[1..])
  }

  function Nibble(x: bv8): (n: nat)
    requires x < 16
    ensures n < 16
  {
    x as nat
  }

  /** The two table lookups for one byte. */
  function ByTable(x: bv8): bv8 {
    CRC8_16L[Nibble(x & 0x0f)] ^ CRC8_16H[Nibble(x >> 4)]
  }

  lemma TableStep(x: bv8)
    ensures ByTable(x) == Shift8(x)
  {
  }

  /** crc8: the nibble tables compute the shift register over all bits of the input. */
  method Crc8Tables(bytes: array<bv8>, len: nat) returns (crc: bv8)
    requires len <= bytes.Length
    ensures crc == Bits(0, Message(bytes[..len]))
  {
    hide ByTable, Shift8, Bits, Message;
    crc := 0;
    var i: nat := 0;
    while i < len
      invariant i <= len
      invariant Crc(0, bytes[..len]) == Crc(crc, bytes[i..len])
    {
      assert bytes[i..len][0] == bytes[i] && bytes[i..len][1..] == bytes[i + 1..len];
      crc := crc ^ bytes[i];
      TableStep(crc);
      crc := ByTable(crc);
      i := i + 1;
    }
    BytesAreBits(0, bytes[..len]);
  }

  // ---------------------------------------------------------------- bytes and bits

  lemma {:induction false} BitsAppend(s: bv8, a: seq<bool>, b: seq<bool>)
    ensures Bits(s, a + b) == Bits(Bits(s, a), b)
    decreases |a|
  {
    if a == [] {
      assert a + b == b;
    } else {
      assert (a + b)[1..] == a[1..] + b;
      BitsAppend(Feed(s, a[0]), a[1..], b);
    }
  }

  lemma EightBits(s: bv8, b: seq<bool>)
    requires |b| == 8
    ensures Bits(s, b) == Feed(Feed(Feed(Feed(Feed(Feed(Feed(Feed(s,
      b[0]), b[1]), b[2]), b[3]), b[4]), b[5]), b[6]), b[7])
  {
    hide Feed;
    var s1 := Feed(s, b[0]);
    var s2 := Feed(s1, b[1]);
    var s3 := Feed(s2, b[2]);
    var s4 := Feed(s3, b[3]);
    var s5 := Feed(s4, b[4]);
    var s6 := Feed(s5, b[5]);
    var s7 := Feed(s6, b[6]);
    assert Bits(s, b) == Bits(s1, b[1..]);
    assert b[1..][1..] == b[2..] && Bits(s1, b[1..]) == Bits(s2, b[2..]);
    assert b[2..][1..] == b[3..] && Bits(s2, b[2..]) == Bits(s3, b[3..]);
    assert b[3..][1..] == b[4..] && Bits(s3, b[3..]) == Bits(s4, b[4..]);
    assert b[4..][1..] == b[5..] && Bits(s4, b[4..]) == Bits(s5, b[5..]);
    assert b[5..][1..] == b[6..] && Bits(s5, b[5..]) == Bits(s6, b[6..]);
    assert b[6..][1..] == b[7..] && Bits(s6, b[6..]) == Bits(s7, b[7..]);
    assert b[7..][1..] == [] && Bits(s7, b[7..]) == Feed(s7, b[7]);
  }

  function Half(x: bv8): bv8 { x >> 1 }
  predicate Low(x: bv8) { x & 1 != 0 }

  /** Bits still waiting in the register shift down until it is their turn. */
  lemma FeedLow(s: bv8, y: bv8)
    ensures Shift(Xor(s, y)) == Xor(Feed(s, Low(y)), Half(y))
  {
  }

  lemma LowBits(x: bv8, b: seq<bool>)
    requires b == BitsOf(x)
    ensures Low(x) == b[0] && Low(Half(x)) == b[1] && Low(Half(Half(x))) == b[2]
    ensures Low(Half(Half(Half(x)))) == b[3] && Low(Half(Half(Half(Half(x))))) == b[4]
    ensures Low(Half(Half(Half(Half(Half(x)))))) == b[5]
    ensures Low(Half(Half(Half(Half(Half(Half(x))))))) == b[6]
    ensures Low(Half(Half(Half(Half(Half(Half(Half(x)))))))) == b[7]
    ensures Half(Half(Half(Half(Half(Half(Half(Half(x)))))))) == 0
  {
  }

  lemma XorIs(x: bv8, y: bv8)
    ensures Xor(x, y) == x ^ y && Xor(x, 0) == x
  {
  }

  lemma ByteIsBits(s: bv8, x: bv8)
    ensures Bits(s, BitsOf(x)) == Shift8(s ^ x)
  {
    hide Feed, Shift, Xor, Half, Low, BitsOf;
    var b := BitsOf(x);
    LowBits(x, b);
    EightBits(s, b);
    var s1, y1 := Feed(s, b[0]), Half(x);
    var s2, y2 := Feed(s1, b[1]), Half(y1);
    var s3, y3 := Feed(s2, b[2]), Half(y2);
    var s4, y4 := Feed(s3, b[3]), Half(y3);
    var s5, y5 := Feed(s4, b[4]), Half(y4);
    var s6, y6 := Feed(s5, b[5]), Half(y5);
    var s7, y7 := Feed(s6, b[6]), Half(y6);
    FeedLow(s, x);
    FeedLow(s1, y1);
    FeedLow(s2, y2);
    FeedLow(s3, y3);
    FeedLow(s4, y4);
    FeedLow(s5, y5);
    FeedLow(s6, y6);
    FeedLow(s7, y7);
    XorIs(s, x);
    XorIs(Feed(s7, b[7]), 0);
  }

  lemma {:induction false} BytesAreBits(s: bv8, bytes: seq<bv8>)
    ensures Crc(s, bytes) == Bits(s, Message(bytes))
    decreases |bytes|
  {
    if bytes != [] {
      hide Shift8, BitsOf;
      BitsAppend(s, BitsOf(bytes[0]), Message(bytes[1..]));
      ByteIsBits(s, bytes[0]);
      BytesAreBits(Shift8(s ^ bytes[0]), bytes[1..]);
    }
  }

  // ---------------------------------------------------------------- linearity

  /** Bitwise difference of two equally long messages. */
  function Diff(a: seq<bool>, b: seq<bool>): (d: seq<bool>)
    requires |a| == |b|
    ensures |d| == |a|
  {
    seq(|a|, i requires 0 <= i < |a| => a[i] != b[i])
  }

  lemma ShiftLinear(x: bv8, y: bv8)
    ensures Shift(Xor(x, y)) == Xor(Shift(x), Shift(y))
  {
  }

  lemma FeedLinear(s: bv8, t: bv8, a: bool, b: bool)
    ensures Feed(Xor(s, t), a != b) == Xor(Feed(s, a), Feed(t, b))
  {
    hide Shift, Xor, In;
    ShiftLinear(Xor(s, In(a)), Xor(t, In(b)));
    XorSwap(s, t, In(a), In(b));
    InDiffers(a, b);
  }

  lemma InDiffers(a: bool, b: bool)
    ensures In(a != b) == Xor(In(a), In(b))
  {
  }

  lemma XorSwap(s: bv8, t: bv8, x: bv8, y: bv8)
    ensures Xor(Xor(s, t), Xor(x, y)) == Xor(Xor(s, x), Xor(t, y))
  {
    hide Xor;
    XorLaws(s, t, Xor(x, y));
    XorLaws(t, x, y);
    XorLaws(x, t, y);
    XorLaws(s, x, Xor(t, y));
  }

  lemma XorLaws(x: bv8, y: bv8, z: bv8)
    ensures Xor(Xor(x, y), z) == Xor(x, Xor(y, z)) && Xor(x, y) == Xor(y, x)
  {
  }

  lemma DiffTail(a: seq<bool>, b: seq<bool>)
    requires |a| == |b| > 0
    ensures Diff(a, b)[0] == (a[0] != b[0]) && Diff(a, b)[1..] == Diff(a[1..], b[1..])
  {
  }

  /** The checksum is linear: that of a difference is the difference of the checksums. */
  lemma {:induction false} Linear(s: bv8, t: bv8, a: seq<bool>, b: seq<bool>)
    requires |a| == |b|
    ensures Bits(Xor(s, t), Diff(a, b)) == Xor(Bits(s, a), Bits(t, b))
    decreases |a|
  {
    hide Feed, Xor;
    if a != [] {
      FeedLinear(s, t, a[0], b[0]);
      DiffTail(a, b);
      Linear(Feed(s, a[0]), Feed(t, b[0]), a[1..], b[1..]);
    }
  }

  /** Two messages have the same checksum exactly when that of their difference is 0. */
  lemma SameIffDifferenceZero(a: seq<bool>, b: seq<bool>)
    requires |a| == |b|
    ensures Bits(0, a) == Bits(0, b) <==> Bits(0, Diff(a, b)) == 0
  {
    hide Xor, Bits, Diff;
    Linear(0, 0, a, b);
    XorZero(0, 0);
    XorZero(Bits(0, a), Bits(0, b));
  }

  lemma XorZero(x: bv8, y: bv8)
    ensures Xor(x, y) == 0 <==> x == y
  {
  }

  // ---------------------------------------------------------------- odd numbers of flips

  function Odd(x: bv8): bool {
    (x & 0x01 != 0) != ((x & 0x02 != 0) != ((x & 0x04 != 0) != ((x & 0x08 != 0) !=
      ((x & 0x10 != 0) != ((x & 0x20 != 0) != ((x & 0x40 != 0) != (x & 0x80 != 0)))))))
  }

  function Weight(b: seq<bool>): nat {
    if b == [] then 0 else (if b[0] then 1 else 0) + Weight(b[1..])
  }

  lemma FeedParity(s: bv8, b: bool)
    ensures Odd(Feed(s, b)) == (Odd(s) != b)
  {
  }

  /** The parity of the checksum is that of the message. */
  lemma {:induction false} Parity(s: bv8, b: seq<bool>)
    ensures Odd(Bits(s, b)) == (Odd(s) != (Weight(b) % 2 == 1))
    decreases |b|
  {
    if b != [] {
      hide Feed, Odd;
      FeedParity(s, b[0]);
      Parity(Feed(s, b[0]), b[1..]);
    }
  }

  lemma OddFlipsDetected(e: seq<bool>)
    requires Weight(e) % 2 == 1
    ensures Bits(0, e) != 0
  {
    Parity(0, e);
    assert !Odd(0);
  }

  // ---------------------------------------------------------------- bursts

  function None(n: nat): (z: seq<bool>)
    ensures |z| == n
  {
    seq(n, _ => false)
  }

  /** The register after `n` shifts. */
  function Shifts(s: bv8, n: nat): bv8
    decreases n
  {
    if n == 0 then s else Shifts(Shift(s), n - 1)
  }

  lemma ShiftInjective(s: bv8, t: bv8)
    ensures Shift(s) == Shift(t) <==> s == t
    ensures Shift(0) == 0
  {
  }

  lemma {:induction false} ShiftsInjective(s: bv8, t: bv8, n: nat)
    ensures Shifts(s, n) == Shifts(t, n) <==> s == t
    ensures Shifts(0, n) == 0
    decreases n
  {
    if n > 0 {
      hide Shift;
      ShiftInjective(s, t);
      ShiftInjective(0, 0);
      ShiftsInjective(Shift(s), Shift(t), n - 1);
    }
  }

  lemma {:induction false} NoBits(s: bv8, n: nat)
    ensures Bits(s, None(n)) == Shifts(s, n)
    decreases n
  {
    if n > 0 {
      assert None(n)[1..] == None(n - 1);
      assert s ^ 0 == s;
      NoBits(Shift(s), n - 1);
    }
  }

  /** Bits in front of the first flip and behind the last do not matter. */
  lemma Framed(i: nat, b: seq<bool>, j: nat)
    ensures Bits(0, None(i) + b + None(j)) == 0 <==> Bits(0, b) == 0
  {
    BitsAppend(0, None(i) + b, None(j));
    BitsAppend(0, None(i), b);
    NoBits(0, i);
    ShiftsInjective(0, 0, i);
    NoBits(Bits(0, b), j);
    ShiftsInjective(Bits(0, b), 0, j);
  }

  lemma ByteOf(b: seq<bool>) returns (x: bv8)
    requires |b| == 8
    ensures BitsOf(x) == b
  {
    x := In(b[0]) | (In(b[1]) << 1) | (In(b[2]) << 2) | (In(b[3]) << 3)
      | (In(b[4]) << 4) | (In(b[5]) << 5) | (In(b[6]) << 6) | (In(b[7]) << 7);
  }

  lemma EightBitsDetected(b: seq<bool>)
    requires |b| == 8 && Bits(0, b) == 0
    ensures b == None(8)
  {
    hide Shift8, Bits, BitsOf;
    var x := ByteOf(b);
    ByteIsBits(0, x);
    Shift8Injective(x);
    assert (0 as bv8) ^ x == x;
    NoBitsInZero();
  }

  lemma NoBitsInZero()
    ensures BitsOf(0) == None(8)
  {
  }

  lemma Shift8Injective(x: bv8)
    ensures Shift8(x) == 0 <==> x == 0
  {
  }

  /** Every burst of at most eight bits is detected, wherever it lies. */
  lemma BurstsDetected(i: nat, b: seq<bool>, j: nat)
    requires |b| <= 8 && true in b
    ensures Bits(0, None(i) + b + None(j)) != 0
  {
    Framed(i, b, j);
    if Bits(0, b) == 0 {
      ZeroBurst(b);
    }
  }

  lemma ZeroBurst(b: seq<bool>)
    requires |b| <= 8 && Bits(0, b) == 0
    ensures true !in b
  {
    hide Bits;
    var full := b + None(8 - |b|);
    assert None(0) + b + None(8 - |b|) == full;
    Framed(0, b, 8 - |b|);
    EightBitsDetected(full);
    assert forall k :: 0 <= k < |b| ==> b[k] == full[k] == None(8)[k];
  }

  // ---------------------------------------------------------------- two flips

  /** Where the register is `n` shifts behind a lone flip. */
  function Orbit(n: nat): bv8 { if n == 0 then 1 else Shift(Orbit(n - 1)) }

  const PERIOD := 127

  lemma {:induction false} OrbitIsShifts(n: nat, m: nat)
    ensures Orbit(n + m) == Shifts(Orbit(n), m)
    decreases m
  {
    if m > 0 {
      OrbitIsShifts(n + 1, m - 1);
    }
  }

  lemma OrbitBy8(n: nat)
    ensures Orbit(n + 8) == Shift8(Orbit(n))
  {
    hide Shift;
    assert Orbit(n + 2) == Shift(Shift(Orbit(n)));
    assert Orbit(n + 4) == Shift(Shift(Orbit(n + 2)));
    assert Orbit(n + 6) == Shift(Shift(Orbit(n + 4)));
    assert Orbit(n + 8) == Shift(Shift(Orbit(n + 6)));
  }

  lemma OrbitCloses()
    ensures Orbit(PERIOD) == 1
  {
    hide Orbit;
    OrbitStart();
    assert Orbit(8) == Shift8(Orbit(0)) == 0x5e by { OrbitBy8(0); }
    assert Orbit(16) == Shift8(Orbit(8)) == 0xc4 by { OrbitBy8(8); }
    assert Orbit(24) == Shift8(Orbit(16)) == 0xab by { OrbitBy8(16); }
    assert Orbit(32) == Shift8(Orbit(24)) == 0x8f by { OrbitBy8(24); }
    assert Orbit(40) == Shift8(Orbit(32)) == 0xcd by { OrbitBy8(32); }
    assert Orbit(48) == Shift8(Orbit(40)) == 0x37 by { OrbitBy8(40); }
    assert Orbit(56) == Shift8(Orbit(48)) == 0x3d by { OrbitBy8(48); }
    assert Orbit(64) == Shift8(Orbit(56)) == 0x43 by { OrbitBy8(56); }
    assert Orbit(72) == Shift8(Orbit(64)) == 0xa4 by { OrbitBy8(64); }
    assert Orbit(80) == Shift8(Orbit(72)) == 0xce by { OrbitBy8(72); }
    assert Orbit(88) == Shift8(Orbit(80)) == 0xd5 by { OrbitBy8(80); }
    assert Orbit(96) == Shift8(Orbit(88)) == 0x68 by { OrbitBy8(88); }
    assert Orbit(104) == Shift8(Orbit(96)) == 0xa7 by { OrbitBy8(96); }
    assert Orbit(112) == Shift8(Orbit(104)) == 0x2c by { OrbitBy8(104); }
    assert Orbit(120) == Shift8(Orbit(112)) == 0x80 by { OrbitBy8(112); }
    assert Orbit(128) == Shift8(Orbit(120)) == 0x8c by { OrbitBy8(120); }
    OrbitNext(PERIOD);
    ShiftInjective(Orbit(PERIOD), 1);
  }

  lemma OrbitStart()
    ensures Orbit(0) == 1 && Orbit(1) == 0x8c
  {
  }

  lemma OrbitNext(n: nat)
    ensures Orbit(n + 1) == Shift(Orbit(n))
  {
  }

  lemma OrbitBack(a: nat, p: nat)
    requires Orbit(p) == 1 && p <= a
    ensures Orbit(a) == Orbit(a - p)
  {
    OrbitIsShifts(p, a - p);
    OrbitIsShifts(0, a - p);
  }

  predicate LeastPeriod(p: nat) {
    p > 0 && Orbit(p) == 1 && forall k :: 0 < k < p ==> Orbit(k) != 1
  }

  /** All returns are multiples of the first one. */
  lemma {:induction false} ReturnsAreMultiples(n: nat, p: nat) returns (q: nat)
    requires LeastPeriod(p) && Orbit(n) == 1
    ensures n == q * p
    decreases n
  {
    if n == 0 {
      return 0;
    }
    assert n >= p;
    OrbitBack(n, p);
    var q' := ReturnsAreMultiples(n - p, p);
    q := q' + 1;
  }

  lemma FirstReturn() returns (p: nat)
    ensures LeastPeriod(p) && p <= PERIOD
  {
    OrbitCloses();
    p := 1;
    while Orbit(p) != 1
      invariant 1 <= p <= PERIOD && forall k :: 0 < k < p ==> Orbit(k) != 1
      decreases PERIOD - p
    {
      p := p + 1;
    }
  }

  lemma PrimePeriod(p: nat, q: nat)
    requires p * q == PERIOD
    ensures p == 1 || p == PERIOD
  {
    if p <= q {
      SmallFactor(p, q);
    } else {
      assert q * p == PERIOD;
      SmallFactor(q, p);
    }
  }

  lemma AtLeast144(p: nat, q: nat)
    requires p >= 12 && q >= 12
    ensures p * q >= 144
  {
    assert p * q == 12 * q + (p - 12) * q;
  }

  lemma SmallFactor(p: nat, q: nat)
    requires p * q == PERIOD && p <= q
    ensures p == 1
  {
    if p >= 12 {
      AtLeast144(p, q);
    } else if p == 2 {
    } else if p == 3 {
    } else if p == 4 {
    } else if p == 5 {
    } else if p == 6 {
    } else if p == 7 {
    } else if p == 8 {
    } else if p == 9 {
    } else if p == 10 {
    } else if p == 11 {
    }
  }

  /** The register of a lone flip comes back after exactly the multiples of 127 shifts. */
  lemma OrbitReturns(n: nat)
    ensures Orbit(n) == 1 <==> n % PERIOD == 0
  {
    var p := FirstReturn();
    OrbitCloses();
    var q := ReturnsAreMultiples(PERIOD, p);
    PrimePeriod(q, p);
    OrbitStart();
    assert p == PERIOD;
    if Orbit(n) == 1 {
      var m := ReturnsAreMultiples(n, p);
      assert n == m * PERIOD;
    }
    if n % PERIOD == 0 {
      MultiplesReturn(n / PERIOD);
    }
  }

  lemma {:induction false} MultiplesReturn(m: nat)
    ensures Orbit(m * PERIOD) == 1
  {
    if m > 0 {
      MultiplesReturn(m - 1);
      OrbitCloses();
      OrbitBack(m * PERIOD, PERIOD);
    }
  }

  lemma {:induction false} ShiftsFromOne(n: nat)
    ensures Shifts(1, n) == Orbit(n)
  {
    OrbitIsShifts(0, n);
  }

  /** Two flips are missed exactly when their distance is a multiple of 127 bits. */
  lemma TwoFlipsMissedIff127(i: nat, gap: nat, j: nat)
    ensures Bits(0, None(i) + ([true] + None(gap) + [true]) + None(j)) == 0 <==> (gap + 1) % PERIOD == 0
  {
    Framed(i, [true] + None(gap) + [true], j);
    BitsAppend(0, [true] + None(gap), [true]);
    BitsAppend(0, [true], None(gap));
    assert Bits(0, [true]) == Shift(1);
    NoBits(Shift(1), gap);
    assert Shifts(1, gap + 1) == Shifts(Shift(1), gap);
    ShiftsFromOne(gap + 1);
    var s := Orbit(gap + 1);
    assert Bits(s, [true]) == Shift(s ^ 1);
    ShiftInjective(s ^ 1, 0);
    assert s ^ 1 == 0 <==> s == 1;
    OrbitReturns(gap + 1);
  }

  // ---------------------------------------------------------------- short messages

  lemma {:induction false} WeightAppend(a: seq<bool>, b: seq<bool>)
    ensures Weight(a + b) == Weight(a) + Weight(b)
  {
    if a == [] {
      assert a + b == b;
    } else {
      assert (a + b)[1..] == a[1..] + b;
      WeightAppend(a[1..], b);
    }
  }

  lemma {:induction false} ZeroWeight(e: seq<bool>)
    requires Weight(e) == 0
    ensures e == None(|e|)
  {
    if e != [] {
      ZeroWeight(e[1..]);
      assert e == [false] + e[1..];
    }
  }

  /** The first flip of a message that has one. */
  lemma {:induction false} FirstFlip(e: seq<bool>) returns (i: nat)
    requires Weight(e) > 0
    ensures i < |e| && e == None(i) + [true] + e[i + 1..] && Weight(e[i + 1..]) == Weight(e) - 1
  {
    if e[0] {
      i := 0;
    } else {
      var i' := FirstFlip(e[1..]);
      i := i' + 1;
      assert e == [false] + e[1..];
      assert [false] + None(i') == None(i);
      assert e[1..][i' + 1..] == e[i + 1..];
    }
  }

  lemma Regroup(a: seq<bool>, x: seq<bool>, b: seq<bool>, c: seq<bool>)
    ensures a + x + (b + x + c) == a + (x + b + x) + c
  {
  }

  /** In a message of at most 127 bits every error of one, two or three bits is detected. */
  lemma ThreeFlipsDetected(e: seq<bool>)
    requires |e| <= PERIOD && 1 <= Weight(e) <= 3
    ensures Bits(0, e) != 0
  {
    if Weight(e) == 2 {
      var i := FirstFlip(e);
      var rest := e[i + 1..];
      var g := FirstFlip(rest);
      var tail := rest[g + 1..];
      ZeroWeight(tail);
      Regroup(None(i), [true], None(g), tail);
      TwoFlipsMissedIff127(i, g, |tail|);
    } else {
      OddFlipsDetected(e);
    }
  }

  // ---------------------------------------------------------------- the scratchpad

  /** The acceptance test of dsth_read_scratchpad: eight bytes and their checksum. */
  method AcceptScratchpad(pad: array<bv8>) returns (ok: bool)
    requires pad.Length == 9
    ensures ok == Accepted(pad[..])
  {
    var crc := Crc8Tables(pad, 8);
    ok := crc == pad[8];
    assert pad[..][..8] == pad[..8];
  }

  predicate Accepted(pad: seq<bv8>)
    requires |pad| == 9
  {
    Bits(0, Message(pad[..8])) == pad[8]
  }

  lemma {:induction false} MessageAppend(a: seq<bv8>, b: seq<bv8>)
    ensures Message(a + b) == Message(a) + Message(b)
  {
    hide BitsOf;
    if a == [] {
      assert a + b == b;
    } else {
      assert (a + b)[1..] == a[1..] + b;
      MessageAppend(a[1..], b);
    }
  }

  /** Appending the checksum gives residue 0, and no other byte does. */
  lemma Residue(bytes: seq<bv8>, c: bv8)
    ensures Bits(0, Message(bytes + [c])) == 0 <==> c == Bits(0, Message(bytes))
  {
    MessageAppend(bytes, [c]);
    assert Message([c]) == BitsOf(c) + Message([c][1..]);
    assert Message([c]) == BitsOf(c);
    BitsAppend(0, Message(bytes), BitsOf(c));
    var s := Bits(0, Message(bytes));
    ByteIsBits(s, c);
    Shift8Injective(s ^ c);
    assert s ^ c == 0 <==> s == c;
  }

  /** A scratchpad that was accepted is not accepted any more after any one, two or three bit flips,
      any odd number of flips, or any flips within eight neighbouring bits. */
  lemma CorruptionRejected(pad: seq<bv8>, bad: seq<bv8>)
    requires |pad| == |bad| == 9 && Accepted(pad)
    ensures var e := Diff(Message(pad), Message(bad));
            (1 <= Weight(e) <= 3 || Weight(e) % 2 == 1
             || exists i, b, j :: e == None(i) + b + None(j) && |b| <= 8 && true in b)
            ==> !Accepted(bad)
  {
    var e := Diff(Message(pad), Message(bad));
    AcceptedIffResidue(pad);
    AcceptedIffResidue(bad);
    SameIffDifferenceZero(Message(pad), Message(bad));
    if 1 <= Weight(e) <= 3 {
      ThreeFlipsDetected(e);
    } else if Weight(e) % 2 == 1 {
      OddFlipsDetected(e);
    } else if i, b, j :| e == None(i) + b + None(j) && |b| <= 8 && true in b {
      BurstsDetected(i, b, j);
    }
  }

  lemma AcceptedIffResidue(pad: seq<bv8>)
    requires |pad| == 9
    ensures Accepted(pad) <==> Bits(0, Message(pad)) == 0
  {
    Residue(pad[..8], pad[8]);
    assert pad == pad[..8] + [pad[8]];
  }
}
