/** Sampling and decoding the response of a DHT sensor. */
module DhtDecoder {
  import opened Bytes
  import opened Bits8

  const BREAK_THRSHD := 500
  const DTA_BITS := 40
  const SIGNALS := DTA_BITS + 1
  const TICKS := 0x1_0000_0000

  /** Difference of two 32-bit clock readings. */
  function Sub32(a: u32, b: u32): u32 { (a - b) % TICKS }

  /** One turn of the sampling loop: the level of the line, then the clock. */
  datatype Sample = Sample(high: bool, tick: u32)

  /** The loop's states 3, 0 and 1. */
  datatype Mode = Init | Down | High

  /** State, start and siglens[..i] of the loop, and whether it has been left. */
  datatype Sampling = Sampling(mode: Mode, start: u32, lens: seq<u32>, ended: bool)

  function Begin(start: u32): Sampling { Sampling(Init, start, [], false) }

  function OneSample(s: Sampling, x: Sample): (t: Sampling)
    ensures |s.lens| < SIGNALS && !s.ended ==> |t.lens| <= SIGNALS && (!t.ended ==> |t.lens| < SIGNALS)
  {
    if s.mode == Down && x.high then s.(mode := High, start := x.tick)
    else if s.mode == High && !x.high then
      var lens := s.lens + [Sub32(x.tick, s.start)];
      Sampling(Down, x.tick, lens, |lens| == SIGNALS)
    else if s.mode == Init && !x.high then s.(mode := Down, start := x.tick)
    else s.(ended := Sub32(x.tick, s.start) >= BREAK_THRSHD)
  }

  function SampleAll(s: Sampling, xs: seq<Sample>): Sampling
    decreases |xs|
  {
    if xs == [] || s.ended then s else SampleAll(OneSample(s, xs[0]), xs[1..])
  }

  /** The retrieve loop, filling siglens; `ended` is false when the samples given did not suffice. */
  method Retrieve(start0: u32, xs: seq<Sample>, siglens: array<u32>) returns (i: nat, ended: bool)
    requires siglens.Length == SIGNALS
    modifies siglens
    ensures i <= SIGNALS
    ensures var s := SampleAll(Begin(start0), xs); siglens[..i] == s.lens && ended == s.ended
  {
    var state, start, k: nat := 3, start0, 0;
    ghost var s := Begin(start0);
    i, ended := 0, false;
    assert xs[0..] == xs;
    while i < SIGNALS && k < |xs|
      invariant i <= SIGNALS && k <= |xs| && !ended
      invariant s.lens == siglens[..i] && s.start == start && s.ended == (i == SIGNALS)
      invariant state == if s.mode == Init then 3 else if s.mode == Down then 0 else 1
      invariant SampleAll(Begin(start0), xs) == SampleAll(s, xs[k..])
      decreases |xs| - k
    {
      var level, tick := if xs[k].high then 1 else 0, xs[k].tick;
      assert xs[k..][0] == xs[k] && xs[k..][1..] == xs[k + 1..];
      s := OneSample(s, xs[k]);
      k := k + 1;
      if state == 0 || state == 1 {
        if state != level {
          if state == 1 {
            siglens[i] := Sub32(tick, start);
            i := i + 1;
          }
          start := tick;
          state := 1 - state;
          continue;
        }
      } else if level == 0 {
        start := tick;
        state := 0;
        continue;
      }
      if Sub32(tick, start) >= BREAK_THRSHD {
        ended := true;
        return;
      }
    }
    ended := i == SIGNALS;
  }

  // ---------------------------------------------------------------- decoding

  /** Bit `k` of a byte string, most significant first. */
  predicate MsbBitAt(data: seq<bv8>, k: nat)
    requires k < 8 * |data|
  {
    (data[k / 8] >> (7 - k % 8)) & 1 == 1
  }

  lemma MsbBit(data: seq<bv8>, k: nat)
    requires k < 8 * |data|
    ensures MsbBitAt(data, k) <==> Bit(data[k / 8], 7 - k % 8)
  {
    BitShifted(data[k / 8], 7 - k % 8);
  }

  lemma SameBits(a: seq<bv8>, b: seq<bv8>)
    requires |a| == |b| && forall k :: 0 <= k < 8 * |a| ==> (MsbBitAt(a, k) <==> MsbBitAt(b, k))
    ensures a == b
  {
    hide MsbBitAt, Bit;
    forall j | 0 <= j < |a| ensures a[j] == b[j] {
      forall n | 0 <= n < 8 ensures Bit(a[j], n) <==> Bit(b[j], n) {
        MsbBit(a, 8 * j + 7 - n);
        MsbBit(b, 8 * j + 7 - n);
      }
      BitsDetermine(a[j], b[j]);
    }
  }

  /** `data` is what 40 measured pulses from `off` on encode: longer than 50us is a one. */
  predicate Encodes(lens: seq<u32>, off: nat, data: seq<bv8>) {
    && |data| == DTA_BITS / 8 && off + DTA_BITS <= |lens|
    && forall k :: 0 <= k < DTA_BITS ==> (MsbBitAt(data, k) <==> lens[off + k] > 50)
  }

  /** No response, corrupted data, or five bytes whose checksum is right. */
  datatype Probe = NoResponse | Corrupted | Read(data: seq<bv8>)

  /** The 8-bit sum of the first `n` bytes, carries dropped. */
  function Sum(data: seq<bv8>, n: nat): bv8
    requires n <= |data|
  {
    if n == 0 then 0 else Sum(data, n - 1) + data[n - 1]
  }

  predicate ChecksumOk(data: seq<bv8>)
    requires |data| == 5
  {
    Sum(data, 4) == data[4]
  }

  function IntSum(data: seq<bv8>, n: nat): nat
    requires n <= |data|
  {
    if n == 0 then 0 else IntSum(data, n - 1) + Val(data[n - 1])
  }

  lemma SumStep(data: seq<bv8>, n: nat)
    requires 0 < n <= |data|
    ensures Sum(data, n) == Plus(Sum(data, n - 1), data[n - 1])
  {
  }

  lemma NothingSummed(data: seq<bv8>)
    ensures Val(Sum(data, 0)) == 0
  {
  }

  lemma ModuloAdd(x: nat, y: nat)
    ensures (x % 256 + y) % 256 == (x + y) % 256
  {
  }

  lemma {:induction false} SumIsModular(data: seq<bv8>, n: nat)
    requires n <= |data|
    ensures Val(Sum(data, n)) == IntSum(data, n) % 256
  {
    hide Val, Plus, Sum;
    if n == 0 {
      NothingSummed(data);
    } else {
      SumIsModular(data, n - 1);
      SumStep(data, n);
      PlusVal(Sum(data, n - 1), data[n - 1]);
      ModuloAdd(IntSum(data, n - 1), Val(data[n - 1]));
    }
  }

  lemma IntSumOfFour(data: seq<bv8>)
    requires |data| == 5
    ensures IntSum(data, 4) == Val(data[0]) + Val(data[1]) + Val(data[2]) + Val(data[3])
  {
    hide Val;
    assert IntSum(data, 1) == Val(data[0]);
    assert IntSum(data, 2) == Val(data[0]) + Val(data[1]);
  }

  lemma SameVal(x: bv8, y: bv8)
    ensures x == y <==> Val(x) == Val(y)
  {
  }

  lemma ByteVals(data: seq<bv8>)
    requires |data| == 5
    ensures forall k :: 0 <= k < 5 ==> Val(data[k]) == data[k] as nat
  {
  }

  /** The checksum is right when the sum of the first four bytes, as numbers, is the last one modulo 256. */
  lemma ChecksumIsSum(data: seq<bv8>)
    requires |data| == 5
    ensures ChecksumOk(data) <==>
      (data[0] as nat + data[1] as nat + data[2] as nat + data[3] as nat) % 256 == data[4] as nat
  {
    ByteVals(data);
    hide Val, Sum, IntSum;
    SumIsModular(data, 4);
    SameVal(Sum(data, 4), data[4]);
    IntSumOfFour(data);
  }

  /** A 41st pulse means that the first one is the response pulse, which is skipped. */
  function DataStart(lens: seq<u32>): nat { if |lens| > DTA_BITS then 1 else 0 }

  /** What a probe makes of the measured pulses. */
  ghost predicate Probed(lens: seq<u32>, res: Probe) {
    if lens == [] then res == NoResponse
    else if |lens| < DTA_BITS then res == Corrupted
    else
      exists data :: Encodes(lens, DataStart(lens), data)
        && res == if ChecksumOk(data) then Read(data) else Corrupted
  }

  /** The bit packing loop. */
  method Pack(siglens: array<u32>, j0: nat) returns (data: array<bv8>)
    requires j0 + DTA_BITS <= siglens.Length
    ensures fresh(data) && Encodes(siglens[..], j0, data[..]) && data.Length == 5
    ensures forall k :: 0 <= k < 40 ==>
      (data[k / 8] >> (7 - k % 8)) & 1 == if siglens[j0 + k] > 50 then 1 else 0
  {
    hide MsbBitAt;
    data := new bv8[DTA_BITS / 8](_ => 0);
    var j := j0;
    NothingSet(data[..]);
    for i := 0 to DTA_BITS
      invariant j == j0 + i
      invariant forall k :: 0 <= k < i ==> (MsbBitAt(data[..], k) <==> siglens[j0 + k] > 50)
      invariant forall k :: i <= k < DTA_BITS ==> !MsbBitAt(data[..], k)
    {
      if siglens[j] > 50 {
        ghost var before := data[..];
        data[i / 8] := Put(data[i / 8], 7 - i % 8, true);
        OneMore(before, data[..], i);
      }
      j := j + 1;
    }
    EncodedBits(siglens[..], j0, data[..]);
  }

  /** Bit by bit: the first pulse in the highest bit of the first byte. */
  predicate Bits40(lens: seq<u32>, off: nat, data: seq<bv8>)
    requires off + 40 <= |lens|
  {
    && |data| == 5
    && forall k :: 0 <= k < 40 ==> (data[k / 8] >> (7 - k % 8)) & 1 == if lens[off + k] > 50 then 1 else 0
  }

  lemma EncodedBits(lens: seq<u32>, off: nat, data: seq<bv8>)
    requires Encodes(lens, off, data)
    ensures off + 40 <= |lens| && Bits40(lens, off, data)
  {
    forall k | 0 <= k < 40
      ensures (data[k / 8] >> (7 - k % 8)) & 1 == if lens[off + k] > 50 then 1 else 0
    {
      assert MsbBitAt(data, k) <==> lens[off + k] > 50;
      ZeroOrOne(data[k / 8], 7 - k % 8);
    }
  }

  lemma NothingSet(data: seq<bv8>)
    requires forall q :: 0 <= q < |data| ==> data[q] == 0
    ensures forall k :: 0 <= k < 8 * |data| ==> !MsbBitAt(data, k)
  {
    hide Bit, MsbBitAt;
    forall k | 0 <= k < 8 * |data| ensures !MsbBitAt(data, k) {
      MsbBit(data, k);
      OrBit(0, 0, false, 7 - k % 8);
    }
  }

  lemma OneMore(a: seq<bv8>, b: seq<bv8>, i: nat)
    requires i < 8 * |a| && |b| == |a| && b == a[i / 8 := Put(a[i / 8], 7 - i % 8, true)]
    ensures MsbBitAt(b, i)
    ensures forall k :: 0 <= k < 8 * |a| && k != i ==> (MsbBitAt(b, k) <==> MsbBitAt(a, k))
  {
    hide Bit, Put, MsbBitAt;
    forall k | 0 <= k < 8 * |a| ensures MsbBitAt(b, k) <==> k == i || MsbBitAt(a, k) {
      MsbBit(a, k);
      MsbBit(b, k);
      if k / 8 == i / 8 {
        PutBit(a[i / 8], 7 - i % 8, true, 7 - k % 8);
      }
    }
  }

  // ---------------------------------------------------------------- the loop seen from the line

  /** How often the line fell from one sample to the next. */
  function Falls(xs: seq<Sample>): nat {
    if |xs| < 2 then 0
    else Falls(xs[..|xs| - 1]) + if xs[|xs| - 2].high && !xs[|xs| - 1].high then 1 else 0
  }

  /** The high pulses completed; the first fall of a line that was high to begin with ends none. */
  function Pulses(xs: seq<Sample>): nat {
    if xs != [] && xs[0].high && Falls(xs) > 0 then Falls(xs) - 1 else Falls(xs)
  }

  /** Whether the last sample shows a level change; the line counts as high before the first one. */
  predicate Changed(xs: seq<Sample>)
    requires xs != []
  {
    xs[|xs| - 1].high != (|xs| == 1 || xs[|xs| - 2].high)
  }

  /** The clock reading with which the present level was first seen. */
  function LastEdge(start0: u32, xs: seq<Sample>): u32 {
    if xs == [] then start0
    else if Changed(xs) then xs[|xs| - 1].tick
    else LastEdge(start0, xs[..|xs| - 1])
  }

  /** The loop is over with the last sample: the 41st pulse is complete, or the level has not changed
      for 500 ticks. */
  predicate EndsHere(start0: u32, xs: seq<Sample>) {
    && xs != []
    && (Pulses(xs) == 41
        || (!Changed(xs) && (xs[|xs| - 1].tick - LastEdge(start0, xs)) % 0x1_0000_0000 >= 500))
  }

  predicate EndsAt(start0: u32, xs: seq<Sample>, m: nat) {
    && 0 < m <= |xs| && EndsHere(start0, xs[..m])
    && forall k :: 0 <= k < m ==> !EndsHere(start0, xs[..k])
  }

  /** What the loop knows after samples that did not end it. */
  predicate Known(start0: u32, xs: seq<Sample>, s: Sampling) {
    && !s.ended && |s.lens| == Pulses(xs) < SIGNALS && s.start == LastEdge(start0, xs)
    && (s.mode == Init <==> forall x <- xs :: x.high)
    && (s.mode == Init ==> Falls(xs) == 0)
    && (s.mode != Init ==> (s.mode == High <==> xs[|xs| - 1].high) && (xs[0].high ==> Falls(xs) > 0))
  }

  lemma {:induction false} SampleSnoc(s: Sampling, xs: seq<Sample>, x: Sample)
    ensures var t := SampleAll(s, xs);
            SampleAll(s, xs + [x]) == if t.ended then t else OneSample(t, x)
    decreases |xs|
  {
    if xs == [] {
      assert [x][1..] == [] && [] + [x] == [x];
    } else {
      assert (xs + [x])[1..] == xs[1..] + [x];
      if !s.ended {
        SampleSnoc(OneSample(s, xs[0]), xs[1..], x);
      }
    }
  }

  lemma KnownStep(start0: u32, xs: seq<Sample>, s: Sampling)
    requires xs != [] && Known(start0, xs[..|xs| - 1], s)
    ensures var t := OneSample(s, xs[|xs| - 1]);
            |t.lens| == Pulses(xs) && if EndsHere(start0, xs) then t.ended else Known(start0, xs, t)
  {
    var n := |xs| - 1;
    var was := xs[..n];
    assert xs == was + [xs[n]];
    if n > 0 {
      assert was[|was| - 1] == xs[n - 1] && was[0] == xs[0] && was[0] in was;
    }
  }

  /** As long as the line does not end it, the loop goes on and knows what the line has done. */
  lemma {:induction false} KnownRun(start0: u32, xs: seq<Sample>)
    requires forall k :: 0 <= k <= |xs| ==> !EndsHere(start0, xs[..k])
    ensures Known(start0, xs, SampleAll(Begin(start0), xs))
    decreases |xs|
  {
    if xs == [] {
    } else {
      hide Known, EndsHere;
      var n := |xs| - 1;
      var was := xs[..n];
      forall k | 0 <= k <= n ensures !EndsHere(start0, was[..k]) {
        assert was[..k] == xs[..k];
      }
      KnownRun(start0, was);
      assert xs == was + [xs[n]] && xs[..|xs|] == xs;
      SampleSnoc(Begin(start0), was, xs[n]);
      KnownStep(start0, xs, SampleAll(Begin(start0), was));
      KnownGoesOn(start0, was, SampleAll(Begin(start0), was));
    }
  }

  lemma KnownGoesOn(start0: u32, xs: seq<Sample>, s: Sampling)
    requires Known(start0, xs, s)
    ensures !s.ended
  {
  }

  lemma {:induction false} EndedStays(s: Sampling, xs: seq<Sample>, m: nat)
    requires m <= |xs| && SampleAll(s, xs[..m]).ended
    ensures SampleAll(s, xs) == SampleAll(s, xs[..m])
    decreases |xs|
  {
    if m < |xs| {
      var n := |xs| - 1;
      assert xs == xs[..n] + [xs[n]] && xs[..n][..m] == xs[..m];
      EndedStays(s, xs[..n], m);
      SampleSnoc(s, xs[..n], xs[n]);
    } else {
      assert xs[..m] == xs;
    }
  }

  /** The loop ends where the line ends it, with as many widths as pulses have been completed. */
  lemma LoopEndsWithLine(start0: u32, xs: seq<Sample>, m: nat)
    requires EndsAt(start0, xs, m)
    ensures var s := SampleAll(Begin(start0), xs); s.ended && |s.lens| == Pulses(xs[..m])
  {
    hide EndsHere, Known, SampleAll, OneSample, Pulses;
    var seen, was := xs[..m], xs[..m - 1];
    forall k | 0 <= k <= m - 1 ensures !EndsHere(start0, was[..k]) {
      assert was[..k] == xs[..k];
    }
    KnownRun(start0, was);
    assert seen == was + [xs[m - 1]] && seen[..m - 1] == was;
    SampleSnoc(Begin(start0), was, xs[m - 1]);
    KnownGoesOn(start0, was, SampleAll(Begin(start0), was));
    KnownStep(start0, seen, SampleAll(Begin(start0), was));
    EndedStays(Begin(start0), xs, m);
  }

  lemma LoopGoesOnWithLine(start0: u32, xs: seq<Sample>)
    requires forall m :: 0 <= m <= |xs| ==> !EndsAt(start0, xs, m)
    ensures !SampleAll(Begin(start0), xs).ended
  {
    hide EndsHere, Known, SampleAll;
    if k :| 0 <= k <= |xs| && EndsHere(start0, xs[..k]) {
      var m := FirstEnd(start0, xs, k);
    } else {
      KnownRun(start0, xs);
      KnownGoesOn(start0, xs, SampleAll(Begin(start0), xs));
    }
  }

  lemma {:induction false} FirstEnd(start0: u32, xs: seq<Sample>, k: nat) returns (m: nat)
    requires k <= |xs| && EndsHere(start0, xs[..k])
    ensures m <= k && EndsAt(start0, xs, m)
    decreases k
  {
    assert k > 0;
    hide EndsHere;
    if j: nat :| j < k && EndsHere(start0, xs[..j]) {
      m := FirstEnd(start0, xs, j);
    } else {
      m := k;
    }
  }

  /** A line on which no sample is low right behind a high one has completed no pulse. */
  lemma {:induction false} SilentLine(xs: seq<Sample>)
    requires forall k :: 0 < k < |xs| ==> !(xs[k - 1].high && !xs[k].high)
    ensures Pulses(xs) == 0
    decreases |xs|
  {
    if |xs| >= 2 {
      SilentLine(xs[..|xs| - 1]);
      assert xs[|xs| - 1 - 1].high ==> xs[|xs| - 1].high;
    }
  }

  lemma {:induction false} AtMost41(s: Sampling, xs: seq<Sample>)
    requires |s.lens| <= 41 && (!s.ended ==> |s.lens| < 41)
    ensures |SampleAll(s, xs).lens| <= 41
    decreases |xs|
  {
    if xs != [] && !s.ended {
      AtMost41(OneSample(s, xs[0]), xs[1..]);
    }
  }

  /** What a finished probe reports, from the completed pulses alone. */
  lemma ReportsByPulses(lens: seq<u32>, res: Probe)
    requires Probed(lens, res) && |lens| <= 41
    ensures |lens| == 0 ==> res == NoResponse
    ensures 0 < |lens| < 40 ==> res == Corrupted
    ensures |lens| >= 40 ==>
      exists data ::
        Bits40(lens, |lens| - 40, data) &&
        res == if (data[0] as nat + data[1] as nat + data[2] as nat + data[3] as nat) % 256
                  == data[4] as nat then Read(data) else Corrupted
  {
    if |lens| >= 40 {
      var data :| Encodes(lens, DataStart(lens), data)
               && res == if ChecksumOk(data) then Read(data) else Corrupted;
      EncodedBits(lens, DataStart(lens), data);
      ChecksumIsSum(data);
    }
  }

  /** The sampling loop, then the decoder. */
  method MeasureAndDecode(start0: u32, xs: seq<Sample>) returns (res: Option<Probe>)
    ensures var s := SampleAll(Begin(start0), xs);
            if s.ended then res.Some? && Probed(s.lens, res.value) else res == None
  {
    hide SampleAll, MsbBitAt;
    var siglens := new u32[SIGNALS];
    var i, ended := Retrieve(start0, xs, siglens);
    if !ended {
      return None;
    }
    if i == 0 {
      return Some(NoResponse);
    }
    var j := 0;
    if i < DTA_BITS {
      return Some(Corrupted);
    }
    if i > DTA_BITS {
      j := j + 1;
    }
    ghost var lens := siglens[..i];
    var data := Pack(siglens, j);
    ghost var bytes := data[..];
    assert Encodes(lens, DataStart(lens), bytes);
    var crc: bv8 := 0;
    for k := 0 to data.Length - 1
      invariant data[..] == bytes && crc == Sum(bytes, k)
    {
      crc := crc + data[k];
    }
    res := Some(if crc != data[data.Length - 1] then Corrupted else Read(data[..]));
  }

  /** The part of __dht_probe behind the start signal, on the samples it takes. It finishes when the
      line ends the loop, and reports no response, corrupted data or a reading by the pulses
      completed up to there. */
  method ProbeSamples(start0: u32, xs: seq<Sample>) returns (res: Option<Probe>)
    ensures var s := SampleAll(Begin(start0), xs);
            if s.ended then res.Some? && Probed(s.lens, res.value) else res == None
    ensures res == None <==> forall m :: 0 <= m <= |xs| ==> !EndsAt(start0, xs, m)
    ensures res.Some? ==> forall m :: 0 <= m <= |xs| && EndsAt(start0, xs, m) ==>
      var pulses := Pulses(xs[..m]);
      && (pulses == 0 ==> res.value == NoResponse)
      && (0 < pulses < 40 ==> res.value == Corrupted)
      && (pulses >= 40 ==> res.value == Corrupted || res.value.Read?)
  {
    res := MeasureAndDecode(start0, xs);
    hide SampleAll, EndsAt, Pulses, Probed;
    if forall m :: 0 <= m <= |xs| ==> !EndsAt(start0, xs, m) {
      LoopGoesOnWithLine(start0, xs);
    }
    forall m | 0 <= m <= |xs| && EndsAt(start0, xs, m)
      ensures SampleAll(Begin(start0), xs).ended && |SampleAll(Begin(start0), xs).lens| == Pulses(xs[..m])
    {
      LoopEndsWithLine(start0, xs, m);
    }
    if res.Some? {
      AtMost41(Begin(start0), xs);
      ReportsByPulses(SampleAll(Begin(start0), xs).lens, res.value);
    }
  }
}
