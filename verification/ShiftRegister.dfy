/** Reading a parallel-in serial-out shift register over three pins. */
module ShiftRegister {
  import opened Bits8

  /** The register behind the pins: it loads its inputs while SH/~LD is low, and with SH/~LD high moves
      on by one input at every rising edge of CLK. Pin accesses may fail, without any effect. */
  class Piso {
    // the inputs in the order they are shifted out, those of cascaded registers included
    const inputs: nat -> bool
    // whether the n-th pin access works
    const works: nat -> bool
    var shLd: bool
    var clk: bool
    var pos: nat
    var edges: nat
    var accesses: nat

    constructor (inputs: nat -> bool, works: nat -> bool)
      ensures this.inputs == inputs && this.works == works
      ensures shLd && clk && edges == accesses == 0
    {
      this.inputs, this.works := inputs, works;
      shLd, clk, pos, edges, accesses := true, true, 0, 0, 0;
    }

    method SetShLd(v: bool) returns (ok: bool)
      modifies this
      ensures ok == works(old(accesses)) && accesses == old(accesses) + 1
      ensures shLd == (if ok then v else old(shLd)) && clk == old(clk) && edges == old(edges)
      ensures pos == if ok && !v then 0 else old(pos)
    {
      ok := works(accesses);
      accesses := accesses + 1;
      if ok {
        shLd := v;
        if !v {
          pos := 0;
        }
      }
    }

    method SetClk(v: bool) returns (ok: bool)
      modifies this
      ensures ok == works(old(accesses)) && accesses == old(accesses) + 1
      ensures clk == (if ok then v else old(clk)) && shLd == old(shLd)
      ensures edges == old(edges) + if ok && v && !old(clk) then 1 else 0
      ensures pos == old(pos) + if ok && v && !old(clk) && shLd then 1 else 0
    {
      ok := works(accesses);
      accesses := accesses + 1;
      if ok {
        if v && !clk {
          edges := edges + 1;
          if shLd {
            pos := pos + 1;
          }
        }
        clk := v;
      }
    }

    method GetData() returns (ok: bool, bt: bool)
      modifies this`accesses
      ensures ok == works(old(accesses)) && accesses == old(accesses) + 1
      ensures ok ==> bt == inputs(pos)
    {
      ok := works(accesses);
      accesses := accesses + 1;
      bt := ok && inputs(pos);
    }
  }

  /** Bit `k` of a byte string, least significant first. */
  predicate LsbBitAt(data: seq<bv8>, k: nat)
    requires k < 8 * |data|
  {
    (data[k / 8] >> (k % 8)) & 1 == 1
  }

  lemma LsbBit(data: seq<bv8>, k: nat)
    requires k < 8 * |data|
    ensures LsbBitAt(data, k) <==> Bit(data[k / 8], k % 8)
  {
    BitShifted(data[k / 8], k % 8);
  }

  function BytesFor(n: nat): nat { (n + 7) / 8 }

  /** The first `n` bits of `data` are the inputs, the bits of the last byte behind them are 0. */
  predicate Holds(data: seq<bv8>, inputs: nat -> bool, n: nat) {
    && BytesFor(n) <= |data|
    && forall k :: 0 <= k < 8 * BytesFor(n) ==> (LsbBitAt(data, k) <==> k < n && inputs(k))
  }

  /** One more bit; a new byte starts from 0. */
  lemma OneMore(a: seq<bv8>, b: seq<bv8>, inputs: nat -> bool, n: nat)
    requires Holds(a, inputs, n) && n < 8 * |a|
    requires b == a[n / 8 := Or(if n % 8 == 0 then 0 else a[n / 8], n % 8, inputs(n))]
    ensures Holds(b, inputs, n + 1)
  {
    hide Bit, Or, LsbBitAt;
    var x := if n % 8 == 0 then 0 else a[n / 8];
    forall k | 0 <= k < 8 * BytesFor(n + 1) ensures LsbBitAt(b, k) <==> k < n + 1 && inputs(k) {
      LsbBit(a, k);
      LsbBit(b, k);
      if k / 8 == n / 8 {
        OrBit(x, n % 8, inputs(n), k % 8);
        if n % 8 != 0 {
          assert LsbBitAt(a, k) <==> k < n && inputs(k);
        }
      } else {
        assert LsbBitAt(a, k) <==> k < n && inputs(k);
      }
    }
  }

  lemma NothingYet(data: seq<bv8>, inputs: nat -> bool)
    ensures Holds(data, inputs, 0)
  {
  }

  /** One bit read goes into the output; the first one of a byte clears the others. */
  method PutBit(out: array<bv8>, p: nat, i: nat, bt: bool, ghost inputs: nat -> bool, ghost n: nat)
    requires p == n / 8 < out.Length && i == n % 8 && bt == inputs(n)
    requires Holds(out[..], inputs, n)
    modifies out
    ensures Holds(out[..], inputs, n + 1)
    ensures forall k :: 0 <= k < out.Length && k != p ==> out[k] == old(out[k])
  {
    hide Holds, Or;
    if i == 0 {
      out[p] := 0;
    }
    out[p] := Or(out[p], i, bt);
    OneMore(old(out[..]), out[..], inputs, n);
  }

  ghost predicate AllWork(dev: Piso, from: nat, to: nat) {
    forall k :: from <= k < to ==> dev.works(k)
  }

  /** Counted from access `a` on, the first one that does not work is number `f`. */
  ghost predicate FirstFault(dev: Piso, a: nat, f: nat) {
    !dev.works(a + f) && AllWork(dev, a, a + f)
  }

  /** The shifting loop: a bit is read, the clock raised, and lowered for the next bit; `clkLow` tells
      that the clock was left low. */
  method ShiftBits(dev: Piso, nBits: nat, out: array<bv8>) returns (ok: bool, clkLow: bool)
    requires nBits > 0 && BytesFor(nBits) <= out.Length
    requires dev.shLd && !dev.clk && dev.pos == 0
    modifies dev, out
    ensures dev.shLd && clkLow == !dev.clk && out[BytesFor(nBits)..] == old(out[BytesFor(nBits)..])
    ensures ok ==>
      && Holds(out[..], dev.inputs, nBits) && dev.edges == old(dev.edges) + nBits && !clkLow
      && AllWork(dev, old(dev.accesses), old(dev.accesses) + 3 * nBits - 1)
    ensures !ok ==>
      var f := dev.accesses - 1 - old(dev.accesses);
      0 <= f < 3 * nBits - 1 && FirstFault(dev, old(dev.accesses), f) && clkLow == (f % 3 != 2)
  {
    hide Holds, FirstFault, AllWork;
    NothingYet(out[..], dev.inputs);
    var i: nat, p: nat, left: nat := 0, 0, nBits;
    ghost var n: nat, a := 0, dev.accesses;
    NoneYet(dev, a);
    clkLow := true;
    while true
      invariant n + left == nBits && left > 0 && p == n / 8 && i == n % 8
      invariant dev.shLd && !dev.clk && clkLow && dev.pos == n
      invariant dev.edges == old(dev.edges) + n && dev.accesses == a + 3 * n && AllWork(dev, a, a + 3 * n)
      invariant Holds(out[..], dev.inputs, n)
      invariant forall k :: BytesFor(nBits) <= k < out.Length ==> out[k] == old(out[k])
      decreases left
    {
      var bt;
      ok, bt := dev.GetData();
      OneMoreAccess(dev, a, 3 * n);
      if !ok {
        return;
      }
      PutBit(out, p, i, bt, dev.inputs, n);
      n := n + 1;
      i := i + 1;
      if i == 8 {
        p := p + 1;
        i := 0;
      }
      ok := dev.SetClk(true);
      OneMoreAccess(dev, a, 3 * n - 2);
      if !ok {
        return;
      }
      clkLow := false;
      left := left - 1;
      if left == 0 {
        break;
      }
      ok := dev.SetClk(false);
      OneMoreAccess(dev, a, 3 * n - 1);
      if !ok {
        return;
      }
      clkLow := true;
    }
  }

  lemma NoneYet(dev: Piso, a: nat)
    ensures AllWork(dev, a, a)
  {
  }

  lemma OneMoreAccess(dev: Piso, a: nat, n: nat)
    requires AllWork(dev, a, a + n)
    ensures if dev.works(a + n) then AllWork(dev, a, a + n + 1) else FirstFault(dev, a, n)
  {
  }

  lemma HeldBits(data: seq<bv8>, inputs: nat -> bool, n: nat)
    requires Holds(data, inputs, n)
    ensures (n + 7) / 8 <= |data|
    ensures forall k :: 0 <= k < (n + 7) / 8 * 8 ==>
      (data[k / 8] >> (k % 8)) & 1 == if k < n && inputs(k) then 1 else 0
  {
    forall k | 0 <= k < (n + 7) / 8 * 8
      ensures (data[k / 8] >> (k % 8)) & 1 == if k < n && inputs(k) then 1 else 0
    {
      assert LsbBitAt(data, k) <==> k < n && inputs(k);
      ZeroOrOne(data[k / 8], k % 8);
    }
  }

  /** Number `f` of the accesses of a call failed first, and this is the state of the pins it leaves:
      SH/~LD is low just when raising it failed, and the clock is low just when the bit could not be
      read or the clock not be raised, and raising it at the end failed, too. */
  ghost predicate GivesUpAt(dev: Piso, a: nat, f: nat)
    reads dev
  {
    && FirstFault(dev, a, f)
    && (dev.shLd <==> f != 1)
    && (dev.clk <==> f < 3 || f % 3 == 2 || dev.works(a + f + 1))
  }

  /** shr_piso_read. It succeeds exactly when all its pin accesses work. On success the output holds
      inputs 0 to n - 1, there were exactly n rising clock edges, and both pins are high again; in any
      case nothing behind those inputs has changed. */
  method PisoRead(dev: Piso, nBits: nat, out: array<bv8>) returns (ok: bool)
    requires dev.shLd && dev.clk && BytesFor(nBits) <= out.Length
    modifies dev, out
    ensures out[BytesFor(nBits)..] == old(out[BytesFor(nBits)..])
    ensures ok ==>
      && Holds(out[..], dev.inputs, nBits)
      && dev.edges == old(dev.edges) + nBits && dev.shLd && dev.clk
    ensures ok ==> forall k :: 0 <= k < (nBits + 7) / 8 * 8 ==>
      (out[k / 8] >> (k % 8)) & 1 == if k < nBits && dev.inputs(k) then 1 else 0
    ensures forall q :: (nBits + 7) / 8 <= q < out.Length ==> out[q] == old(out[q])
    ensures ok <==> nBits == 0 || AllWork(dev, old(dev.accesses), old(dev.accesses) + 3 * nBits + 2)
    ensures !ok ==> exists f: nat :: f < 3 * nBits + 2 && GivesUpAt(dev, old(dev.accesses), f)
  {
    if nBits == 0 {
      NothingYet(out[..], dev.inputs);
      return true;
    }
    hide Holds;
    ghost var a := dev.accesses;
    ok := dev.SetShLd(false);
    if !ok {
      assert GivesUpAt(dev, a, 0);
      return;
    }
    ok := dev.SetShLd(true);
    if !ok {
      assert GivesUpAt(dev, a, 1);
      return;
    }
    ok := dev.SetClk(false);
    if !ok {
      assert GivesUpAt(dev, a, 2);
      return;
    }
    var clkLow;
    ok, clkLow := ShiftBits(dev, nBits, out);
    ghost var f: nat := 0;
    if !ok {
      f := dev.accesses - 1 - (a + 3);
    }
    if clkLow {
      var raised := dev.SetClk(true);
    }
    if !ok {
      assert GivesUpAt(dev, a, 3 + f);
    } else {
      HeldBits(out[..], dev.inputs, nBits);
    }
  }

  /** When raising SH/~LD fails, the pins are not left as they were found. */
  method ShLdLeftLowExample(inputs: nat -> bool) returns (ok: bool, shLd: bool, clk: bool)
    ensures !ok && !shLd && clk
  {
    var dev := new Piso(inputs, access => access != 1);
    var out := new bv8[1];
    assert !dev.works(1);
    ok := PisoRead(dev, 8, out);
    if !ok {
      ghost var f: nat :| f < 26 && GivesUpAt(dev, 0, f);
      assert f == 1 by {
        assert !dev.works(f);
      }
    }
    shLd, clk := dev.shLd, dev.clk;
  }
}
