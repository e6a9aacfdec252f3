/** The system timer of the board: sleeping on its low 32 bits, reading all 64 of them. */
module Clock {
  import opened Bytes

  const WRAP := 0x1_0000_0000

  function Lo(c: nat): u32 { c % WRAP }
  function Hi(c: nat): nat { c / WRAP }

  // ---------------------------------------------------------------- sleeping

  /** How the loop has slept: the number of counter reads behind the first one, the coarse sleeps it
      asked for (0 for a turn without one), and whether it is through. */
  datatype Slept = Slept(turns: nat, asked: seq<nat>, done: bool)

  /** Counter values at the reads, in true ticks. */
  predicate Monotone(ct: seq<nat>) {
    |ct| > 0 && forall k :: 0 < k < |ct| ==> ct[k - 1] <= ct[k]
  }

  /** Neither a read nor a sleep takes a whole period of the 32-bit counter. */
  predicate NoStall(ct: seq<nat>) {
    forall k :: 0 < k < |ct| ==> ct[k] < ct[k - 1] + WRAP
  }

  /** Every coarse sleep lasts as long as asked for. */
  predicate Honest(ct: seq<nat>, asked: seq<nat>)
    requires |asked| < |ct|
  {
    forall k :: 0 <= k < |asked| ==> ct[k] + asked[k] <= ct[k + 1]
  }

  /** The coarse sleep of a turn with `left` ticks to go. */
  function Coarse(left: nat, thrshd: nat): nat { if left >= thrshd then left / 2 else 0 }

  /** How many coarse sleeps there were. */
  function Sleeps(asked: seq<nat>): nat {
    if asked == [] then 0 else Sleeps(asked[..|asked| - 1]) + if asked[|asked| - 1] > 0 then 1 else 0
  }

  /** The saturating 32-bit accumulator after `t` true ticks. */
  function Clipped(t: nat): u32 { if t < WRAP then t else WRAP - 1 }

  lemma DeltaOf(r: nat, r': nat)
    requires r <= r'
    ensures var delta := (Lo(r') - Lo(r)) % WRAP;
            && (Lo(r) + delta) % WRAP == Lo(r') && delta <= r' - r
            && (r' - r < WRAP ==> delta == r' - r)
  {
  }

  lemma Accumulated(t: nat, delta: u32)
    ensures Clipped(t + delta) == Plus(Clipped(t), delta)
  {
  }

  /** While the loop runs, stop - ticks is what is left, modulo 2^32. */
  lemma StopMinusTicks(r0: nat, r: nat, usec: u32)
    requires r0 <= r < r0 + usec
    ensures ((Lo(r0) + usec) % WRAP - Lo(r)) % WRAP == r0 + usec - r
  {
  }

  /** The accumulator's next value. */
  function Plus(time: u32, delta: u32): u32 {
    if (time + delta) % WRAP < time then WRAP - 1 else (time + delta) % WRAP
  }

  /** bcm_usleep. `ct` are the counter values the volatile register would show, read by read; the
      run is `done` unless they do not suffice. */
  method BcmUsleep(ct: seq<nat>, usec: u32, thrshd: u32) returns (s: Slept)
    requires Monotone(ct)
    ensures |s.asked| == s.turns < |ct| && ct[0] <= ct[s.turns]
    ensures !s.done ==> s.turns == |ct| - 1
    // it sleeps at least `usec`
    ensures s.done ==> ct[s.turns] - ct[0] >= usec
    // and without a stall, it would not have been through one read earlier, and it has always asked
    // for half of what was really left, or for nothing when that was short
    ensures NoStall(ct) ==>
      && (s.done <==> ct[s.turns] - ct[0] >= usec)
      && (s.turns > 0 ==> ct[s.turns - 1] - ct[0] < usec)
      && Halving(ct, usec, thrshd, s.asked)
  {
    hide Lo, Clipped, Coarse, Halving, Plus, NoStall, Counts;
    NothingAsked(ct, usec, thrshd);
    CountsFirst(ct);
    var ticks := Lo(ct[0]);
    var stop := (ticks + usec) % WRAP;
    var time: u32, k: nat := 0, 0;
    var asked: seq<nat> := [];
    while time < usec && k + 1 < |ct|
      invariant k < |ct| && |asked| == k && ct[0] <= ct[k]
      invariant ticks == Lo(ct[k]) && Counts(ct, k, time)
      invariant NoStall(ct) && k > 0 ==> ct[k - 1] - ct[0] < usec
      invariant NoStall(ct) ==> Halving(ct, usec, thrshd, asked)
      decreases |ct| - k
    {
      var ask := if (stop - ticks) % WRAP >= thrshd then (usec - time) / 2 else 0;
      CountsMeans(ct, k, time, usec);
      if NoStall(ct) {
        StopMinusTicks(ct[0], ct[k], usec);
        AskedOnce(ct, usec, thrshd, asked, ask);
      }
      asked := asked + [ask];
      var delta := (Lo(ct[k + 1]) - ticks) % WRAP;
      CountsOn(ct, k, time, delta);
      if delta != 0 {
        time := if (time + delta) % WRAP < time then WRAP - 1 else (time + delta) % WRAP;
        ticks := (ticks + delta) % WRAP;
      }
      k := k + 1;
    }
    CountsMeans(ct, k, time, usec);
    s := Slept(k, asked, time >= usec);
  }

  /** The accumulator never exceeds the time that has really passed, and without a stall is just
      that, clipped. */
  predicate Counts(ct: seq<nat>, k: nat, time: u32)
    requires k < |ct| && ct[0] <= ct[k]
  {
    time <= ct[k] - ct[0] && (NoStall(ct) ==> time == Clipped(ct[k] - ct[0]))
  }

  lemma CountsFirst(ct: seq<nat>)
    requires |ct| > 0
    ensures Counts(ct, 0, 0)
  {
  }

  lemma CountsMeans(ct: seq<nat>, k: nat, time: u32, usec: u32)
    requires k < |ct| && ct[0] <= ct[k] && Counts(ct, k, time)
    ensures time <= ct[k] - ct[0]
    ensures NoStall(ct) ==> (time < usec <==> ct[k] - ct[0] < usec)
    ensures NoStall(ct) && time < usec ==> time == ct[k] - ct[0]
  {
    ClippedBelow(ct[k] - ct[0], usec);
  }

  lemma CountsOn(ct: seq<nat>, k: nat, time: u32, delta: u32)
    requires Monotone(ct) && k + 1 < |ct| && ct[0] <= ct[k] && Counts(ct, k, time)
    requires delta == (Lo(ct[k + 1]) - Lo(ct[k])) % WRAP
    ensures ct[0] <= ct[k + 1]
    ensures Counts(ct, k + 1, if (time + delta) % WRAP < time then WRAP - 1 else (time + delta) % WRAP)
    ensures (Lo(ct[k]) + delta) % WRAP == Lo(ct[k + 1])
    ensures delta == 0 ==> Counts(ct, k + 1, time) && Lo(ct[k + 1]) == Lo(ct[k])
  {
    hide Lo, Clipped, Plus;
    var j := k + 1;
    assert ct[j - 1] <= ct[j];
    DeltaOf(ct[k], ct[j]);
    PlusIs(time, delta);
    Accumulated(ct[k] - ct[0], delta);
    LoBelow(ct[k]);
  }

  lemma LoBelow(r: nat)
    ensures (Lo(r) + 0) % WRAP == Lo(r)
  {
  }

  lemma PlusIs(time: u32, delta: u32)
    ensures Plus(time, delta) == if (time + delta) % WRAP < time then WRAP - 1 else (time + delta) % WRAP
    ensures Plus(time, delta) <= time + delta && Plus(time, 0) == time
  {
  }

  lemma ClippedBelow(t: nat, usec: u32)
    ensures Clipped(t) < usec <==> t < usec
    ensures t < usec ==> Clipped(t) == t
    ensures t == 0 ==> Clipped(t) == 0
  {
  }

  lemma NothingAsked(ct: seq<nat>, usec: u32, thrshd: nat)
    requires |ct| > 0
    ensures Halving(ct, usec, thrshd, [])
  {
  }

  lemma AskedOnce(ct: seq<nat>, usec: u32, thrshd: nat, asked: seq<nat>, ask: nat)
    requires |asked| + 1 < |ct| && Halving(ct, usec, thrshd, asked)
    requires ct[0] <= ct[|asked|] < ct[0] + usec
    requires var left := ct[0] + usec - ct[|asked|]; ask == if left >= thrshd then left / 2 else 0
    ensures Halving(ct, usec, thrshd, asked + [ask])
  {
  }

  /** At every turn the loop had time left and asked for half of it, or for nothing when it was short. */
  predicate Halving(ct: seq<nat>, usec: u32, thrshd: nat, asked: seq<nat>)
    requires |asked| < |ct|
  {
    forall j :: 0 <= j < |asked| ==>
      ct[0] <= ct[j] < ct[0] + usec && asked[j] == Coarse(ct[0] + usec - ct[j], thrshd)
  }

  function Pow2(n: nat): nat { if n == 0 then 1 else 2 * Pow2(n - 1) }

  lemma Powers()
    ensures Pow2(8) == 0x100 && Pow2(32) == WRAP
  {
    assert Pow2(4) == 0x10 && Pow2(8) == 0x100;
    assert Pow2(12) == 0x1000 && Pow2(16) == 0x1_0000;
    assert Pow2(20) == 0x10_0000 && Pow2(24) == 0x100_0000;
    assert Pow2(28) == 0x1000_0000;
  }

  lemma {:induction false} PowersGrow(m: nat, n: nat)
    requires m <= n
    ensures Pow2(m) <= Pow2(n)
    decreases n
  {
    if m < n {
      PowersGrow(m, n - 1);
    }
  }

  /** Before turn `k`, behind m coarse sleeps, no more than 2^32 / 2^m ticks are left. */
  lemma {:induction false} LeftHalves(ct: seq<nat>, usec: u32, asked: seq<nat>, k: nat)
    requires k <= |asked| < |ct| && Honest(ct, asked)
    requires Halving(ct, usec, 400, asked)
    ensures Sleeps(asked[..k]) <= 24
    ensures k < |asked| ==> ct[0] + usec - ct[k] <= Pow2(32 - Sleeps(asked[..k]))
    decreases k
  {
    Powers();
    if k == 0 {
      assert asked[..0] == [];
    } else {
      LeftHalves(ct, usec, asked, k - 1);
      assert asked[..k][..k - 1] == asked[..k - 1];
      var m, left := Sleeps(asked[..k - 1]), ct[0] + usec - ct[k - 1];
      assert ct[k - 1] + asked[k - 1] <= ct[k - 1 + 1];
      assert Pow2(32 - m) == 2 * Pow2(31 - m);
      if m == 24 {
        assert left <= 0x100;
      }
    }
  }

  /** With honest sleeps and the default threshold of 400us there are at most 24 coarse ones, whatever
      is asked for. */
  lemma AtMost24Sleeps(ct: seq<nat>, usec: u32, asked: seq<nat>)
    requires |asked| < |ct| && Honest(ct, asked)
    requires Halving(ct, usec, 400, asked)
    ensures Sleeps(asked) <= 24
  {
    LeftHalves(ct, usec, asked, |asked|);
    assert asked[..|asked|] == asked;
  }

  // ---------------------------------------------------------------- reading 64 bits

  /** clock_get_ticks64. `c1` to `c4` are the 64-bit counter at the instants of the four register
      reads there may be: high, low, high, and low once more. */
  method GetTicks64(c1: nat, c2: nat, c3: nat, c4: nat) returns (ticks: nat)
    requires c1 <= c2 <= c3 <= c4 < WRAP * WRAP
    ensures ticks == Assembled(c1, c2, c3, c4) && c1 <= ticks <= c4
  {
    var chi: nat := Hi(c1);
    var clo: u32 := Lo(c2);
    var chi2 := Hi(c3);
    if chi2 > chi {
      clo := Lo(c4);
      chi := chi2;
    }
    ticks := chi * WRAP + clo;
  }

  function Assembled(c1: nat, c2: nat, c3: nat, c4: nat): nat {
    if Hi(c3) > Hi(c1) then Hi(c3) * WRAP + Lo(c4) else Hi(c1) * WRAP + Lo(c2)
  }

  /** The result is a value the counter went through during the call, however long that took. */
  lemma TicksAreCurrent(c1: nat, c2: nat, c3: nat, c4: nat)
    requires c1 <= c2 <= c3 <= c4
    ensures c1 <= Assembled(c1, c2, c3, c4) <= c4
  {
  }

  /** It is the value at the instant of a low register read exactly when the high half did not change
      between the two high reads, or not any more behind the second of them. */
  lemma TicksAreRead(c1: nat, c2: nat, c3: nat, c4: nat)
    requires c1 <= c2 <= c3 <= c4
    ensures Assembled(c1, c2, c3, c4) == (if Hi(c3) > Hi(c1) then c4 else c2)
       <==> Hi(c3) == Hi(c1) || Hi(c4) == Hi(c3)
    ensures c4 - c1 < WRAP ==> Hi(c3) == Hi(c1) || Hi(c4) == Hi(c3)
  {
  }

  /** So successive calls never run backwards, whatever the counter does in between. */
  lemma TicksNeverGoBack(c1: nat, c2: nat, c3: nat, c4: nat, d1: nat, d2: nat, d3: nat, d4: nat)
    requires c1 <= c2 <= c3 <= c4 <= d1 <= d2 <= d3 <= d4
    ensures Assembled(c1, c2, c3, c4) <= Assembled(d1, d2, d3, d4)
  {
    TicksAreCurrent(c1, c2, c3, c4);
    TicksAreCurrent(d1, d2, d3, d4);
  }
}
