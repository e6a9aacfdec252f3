/** Single bits of a byte, for code that works on bits: such bytes are bit vectors here, those that
    are read as numbers are `Bytes.byte`. */
module Bits8 {

  /** 1 << n. */
  function Mask(n: nat): bv8
    requires n < 8
  {
    if n == 0 then 0x01 else if n == 1 then 0x02 else if n == 2 then 0x04 else if n == 3 then 0x08
    else if n == 4 then 0x10 else if n == 5 then 0x20 else if n == 6 then 0x40 else 0x80
  }

  predicate Bit(x: bv8, n: nat)
    requires n < 8
  {
    x & Mask(n) != 0
  }

  /** Sets or clears a bit. */
  function Put(x: bv8, n: nat, v: bool): bv8
    requires n < 8
  {
    if v then x | Mask(n) else x & !Mask(n)
  }

  /** Sets a bit, or leaves the byte alone. */
  function Or(x: bv8, n: nat, v: bool): bv8
    requires n < 8
  {
    if v then Put(x, n, true) else x
  }

  lemma PutBit(x: bv8, n: nat, v: bool, m: nat)
    requires n < 8 && m < 8
    ensures Bit(Put(x, n, v), m) == if m == n then v else Bit(x, m)
  {
  }

  lemma OrBit(x: bv8, n: nat, v: bool, m: nat)
    requires n < 8 && m < 8
    ensures Bit(Or(x, n, v), m) == (Bit(x, m) || (m == n && v))
    ensures !Bit(0, m)
  {
    PutBit(x, n, true, m);
  }

  /** Bytes are determined by their bits. */
  lemma BitsDetermine(a: bv8, b: bv8)
    requires forall n :: 0 <= n < 8 ==> (Bit(a, n) <==> Bit(b, n))
    ensures a == b
  {
    assert Bit(a, 0) == Bit(b, 0) && Bit(a, 1) == Bit(b, 1);
    assert Bit(a, 2) == Bit(b, 2) && Bit(a, 3) == Bit(b, 3);
    assert Bit(a, 4) == Bit(b, 4) && Bit(a, 5) == Bit(b, 5);
    assert Bit(a, 6) == Bit(b, 6) && Bit(a, 7) == Bit(b, 7);
  }

  /** The same bit by shifting. */
  lemma BitShifted(x: bv8, n: nat)
    requires n < 8
    ensures Bit(x, n) <==> (x >> n) & 1 == 1
  {
  }

  lemma ZeroOrOne(x: bv8, n: nat)
    requires n < 8
    ensures (x >> n) & 1 == 0 || (x >> n) & 1 == 1
  {
  }

  // ---------------------------------------------------------------- sums of bytes

  function Val(x: bv8): (n: nat)
    ensures n < 256
  {
    x as nat
  }

  function Plus(x: bv8, y: bv8): bv8 { x + y }
  function Succ(x: bv8): bv8 { x + 1 }
  function Pred(x: bv8): bv8 { x - 1 }

  lemma PlusZero(x: bv8, y: bv8)
    requires Val(y) == 0
    ensures Plus(x, y) == x
  {
  }

  lemma PlusPred(x: bv8, y: bv8)
    ensures Plus(x, y) == Succ(Plus(x, Pred(y)))
  {
  }

  lemma PredVal(x: bv8)
    requires Val(x) != 0
    ensures Val(Pred(x)) == Val(x) - 1
  {
  }

  lemma SuccVal(x: bv8)
    ensures Val(Succ(x)) == if Val(x) == 255 then 0 else Val(x) + 1
  {
  }

  /** Adding bytes is addition modulo 256. */
  lemma {:induction false} PlusVal(x: bv8, y: bv8)
    ensures Val(Plus(x, y)) == (Val(x) + Val(y)) % 256
    decreases Val(y)
  {
    hide Plus, Pred, Succ, Val;
    if Val(y) == 0 {
      PlusZero(x, y);
    } else {
      PredVal(y);
      PlusVal(x, Pred(y));
      PlusPred(x, y);
      SuccVal(Plus(x, Pred(y)));
    }
  }
}
