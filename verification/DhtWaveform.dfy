/** The line as a sensor drives it, sampled with bounded lag: what the decoder makes of it. */
module DhtWaveform {
  import opened Bytes
  import opened DhtDecoder

  /** Edges at true times `e`, alternating and starting with a fall; samples whose level was read at
      `r[k]` and whose clock was read at `tau[k]`; the clock read before the loop at `s0`. True time
      is unbounded, the loop sees it modulo 2^32. */
  datatype Env = Env(e: seq<nat>, r: seq<nat>, tau: seq<nat>, s0: nat)

  /** The number of edges up to time `t`; the line is high when it is even. */
  function Edges(e: seq<nat>, t: nat): (n: nat)
    ensures n <= |e|
  {
    if e == [] || t < e[0] then 0 else 1 + Edges(e[1..], t)
  }

  lemma {:induction false} EdgesBound(e: seq<nat>, t: nat)
    requires forall c :: 0 < c < |e| ==> e[c - 1] < e[c]
    ensures var n := Edges(e, t);
            (n > 0 ==> e[n - 1] <= t) && (n < |e| ==> t < e[n])
  {
    if e != [] && e[0] <= t {
      EdgesBound(e[1..], t);
    }
  }

  function SampleAt(v: Env, k: nat): Sample
    requires k < |v.r| == |v.tau|
  {
    Sample(Edges(v.e, v.r[k]) % 2 == 0, v.tau[k] % TICKS)
  }

  function Observed(v: Env): (xs: seq<Sample>)
    requires |v.r| == |v.tau|
    ensures |xs| == |v.r|
  {
    seq(|v.r|, k requires 0 <= k < |v.r| => SampleAt(v, k))
  }

  /** Time goes on, and no two clock readings are a whole clock period apart. */
  predicate Ordered(v: Env) {
    && |v.r| == |v.tau| && |v.r| > 0 && v.s0 <= v.r[0]
    && (forall c :: 0 < c < |v.e| ==> v.e[c - 1] < v.e[c])
    && (forall k :: 0 <= k < |v.r| ==> v.r[k] <= v.tau[k])
    && (forall k :: 0 < k < |v.r| ==> v.tau[k - 1] <= v.r[k])
    && (forall k :: 0 < k < |v.r| ==> v.tau[k] - v.tau[k - 1] <= TICKS - BREAK_THRSHD)
  }

  /** The first reading behind a level change lags at most `d` behind it. */
  predicate Lagged(v: Env, d: nat)
    requires |v.r| == |v.tau|
  {
    forall k, c :: 0 < k < |v.r| && 0 <= c < |v.e| && v.r[k - 1] < v.e[c] <= v.r[k]
      ==> v.tau[k] <= v.e[c] + d
  }

  const EDGES := 84

  /** A response: 84 edges, that is the response pulse, forty data pulses and the final release,
      every level longer than `d` and shorter than 500 - d. */
  predicate Response(v: Env, d: nat) {
    && |v.e| == EDGES
    && forall c :: 0 < c < EDGES ==> d < v.e[c] - v.e[c - 1] < BREAK_THRSHD - d
  }

  /** The first data edge the loop will see: the sensor pulling the line down, or, when sampling only
      starts in the response pulse, the fall behind it. */
  predicate InTime(v: Env, d: nat)
    requires |v.e| == EDGES && |v.r| > 0
  {
    && v.r[0] < v.e[2]
    && (v.r[0] < v.e[0] ==> v.e[0] + d < v.s0 + BREAK_THRSHD)
    && (v.e[1] <= v.r[0] ==> v.e[2] + d < v.s0 + BREAK_THRSHD)
  }

  /** The samples go on for long enough. */
  predicate LongEnough(v: Env, d: nat)
    requires |v.e| == EDGES && |v.tau| == |v.r| > 0
  {
    v.r[|v.r| - 1] >= v.e[EDGES - 1] + d + BREAK_THRSHD
  }

  predicate Run(v: Env, d: nat) {
    Ordered(v) && Response(v, d) && Lagged(v, d) && InTime(v, d) && LongEnough(v, d)
  }

  /** Rise of the first pulse that gets recorded: that of the response pulse, or of the first bit. */
  function Offset(v: Env): nat
    requires |v.e| == EDGES && |v.r| > 0
  {
    if v.r[0] < v.e[1] then 1 else 3
  }

  /** Pulse `x` behind rise `off` was measured to within `d`. */
  predicate Measured(v: Env, d: nat, off: nat, x: nat, len: int)
    requires |v.e| == EDGES && off + 2 * x + 1 < EDGES
  {
    var width: int := v.e[off + 2 * x + 1] as int - v.e[off + 2 * x] as int;
    width - d <= len <= width + d
  }

  predicate Recorded(v: Env, d: nat, off: nat, lens: seq<u32>)
    requires |v.e| == EDGES
  {
    forall x :: 0 <= x < |lens| ==> off + 2 * x + 1 < EDGES && Measured(v, d, off, x, lens[x])
  }

  /** The loop behind sample `k`, in the level behind `c` edges, entered at true time `st`. */
  predicate Tracks(v: Env, d: nat, k: nat, c: nat, s: Sampling, st: nat)
    requires Run(v, d) && k < |v.r|
  {
    var off := Offset(v);
    && c == Edges(v.e, v.r[k]) && !s.ended && |s.lens| < SIGNALS && s.start == st % TICKS && st <= v.tau[k]
    && v.tau[k] - st < BREAK_THRSHD
    && Recorded(v, d, off, s.lens)
    && match s.mode
       case Init => c == off - 1 && st == v.s0 && s.lens == [] && (c == 0 ==> v.r[0] < v.e[0])
       case Down => c % 2 == 1 && off <= c && |s.lens| == (c - off) / 2 && v.e[c - 1] <= st
       case High => c % 2 == 0 && off <= c && |s.lens| == (c - off) / 2
                    && v.e[c - 1] <= st <= v.e[c - 1] + d
  }

  /** What the loop is left with. */
  predicate Finished(v: Env, d: nat, s: Sampling)
    requires |v.e| == EDGES && |v.r| > 0
  {
    var off := Offset(v);
    s.ended && Recorded(v, d, off, s.lens) && |s.lens| == (if off == 1 then SIGNALS else DTA_BITS)
  }

  lemma TrueDifference(a: nat, b: nat)
    requires b <= a < b + TICKS
    ensures Sub32(a % TICKS, b % TICKS) == a - b
  {
  }

  lemma EdgeStep(e: seq<nat>, d: nat, r: nat, r': nat, tau': nat)
    requires forall c :: 0 < c < |e| ==> e[c - 1] + d < e[c]
    requires r <= r' <= tau' && forall c :: 0 <= c < |e| && r < e[c] <= r' ==> tau' <= e[c] + d
    ensures var c, c' := Edges(e, r), Edges(e, r');
            && c <= c' <= c + 1
            && (c' == c + 1 ==> r < e[c] <= r' && tau' <= e[c] + d)
  {
    hide Edges;
    var c, c' := Edges(e, r), Edges(e, r');
    EdgesBound(e, r);
    EdgesBound(e, r');
    if c' < c {
      Increasing(e, c', c);
    } else if c < c' {
      Increasing(e, c, c');
      Increasing(e, c + 1, c');
      if c + 1 < |e| {
        assert e[c + 1 - 1] + d < e[c + 1];
      }
    }
  }

  /** Between two samples there is at most one edge, and it is read within `d`. */
  lemma OneEdgeAtMost(v: Env, d: nat, k: nat)
    requires Run(v, d) && k + 1 < |v.r|
    ensures var c, c' := Edges(v.e, v.r[k]), Edges(v.e, v.r[k + 1]);
            && c <= c' <= c + 1
            && (c' == c + 1 ==> v.r[k] < v.e[c] <= v.r[k + 1] && v.tau[k + 1] <= v.e[c] + d)
  {
    hide Edges;
    var j := k + 1;
    assert v.r[j - 1] <= v.tau[j - 1] <= v.r[j] <= v.tau[j];
    forall c | 0 <= c < |v.e| && v.r[k] < v.e[c] <= v.r[j] ensures v.tau[j] <= v.e[c] + d {
      assert v.r[j - 1] < v.e[c];
    }
    EdgeStep(v.e, d, v.r[k], v.r[j], v.tau[j]);
  }

  lemma {:induction false} Increasing(e: seq<nat>, a: nat, b: nat)
    requires forall c :: 0 < c < |e| ==> e[c - 1] < e[c]
    requires b <= |e|
    ensures a < b ==> e[a] <= e[b - 1]
    decreases b
  {
    if a < b - 1 {
      Increasing(e, a, b - 1);
      assert e[b - 1 - 1] < e[b - 1];
    }
  }

  /** A clock read in the level behind `c` edges is not late, as the next edge is read in time. */
  lemma NotLate(v: Env, d: nat, k: nat, c: nat)
    requires Run(v, d) && k < |v.r| && c == Edges(v.e, v.r[k]) < EDGES
    ensures v.tau[k] <= v.e[c] + d
  {
    hide Edges, InTime;
    EdgesBound(v.e, v.r[k]);
    var j := k + 1;
    if j < |v.r| {
      assert v.tau[j - 1] <= v.r[j] <= v.tau[j];
      if v.e[c] <= v.r[j] {
        assert v.r[j - 1] < v.e[c] <= v.r[j];
      }
    } else {
      Increasing(v.e, c, EDGES);
    }
  }

  // ---------------------------------------------------------------- following the loop through a response

  /** The loop from sample `k` on. */
  function Follow(v: Env, s: Sampling, k: nat): Sampling
    requires |v.r| == |v.tau|
    decreases |v.r| - k
  {
    if k >= |v.r| || s.ended then s else Follow(v, OneSample(s, SampleAt(v, k)), k + 1)
  }

  lemma {:induction false} FollowIsSampleAll(v: Env, s: Sampling, k: nat)
    requires |v.r| == |v.tau| && k <= |v.r|
    ensures Follow(v, s, k) == SampleAll(s, Observed(v)[k..])
    decreases |v.r| - k
  {
    if k < |v.r| && !s.ended {
      FollowIsSampleAll(v, OneSample(s, SampleAt(v, k)), k + 1);
      assert Observed(v)[k..][1..] == Observed(v)[k + 1..];
    }
  }

  /** A sample in the same level: the loop stays, or leaves in the idle level behind a missed
      response pulse. */
  lemma Stay(v: Env, d: nat, k: nat, c: nat, s: Sampling, st: nat)
    requires Run(v, d) && k + 1 < |v.r| && Tracks(v, d, k, c, s, st)
    requires Edges(v.e, v.r[k + 1]) == c
    ensures var s' := OneSample(s, SampleAt(v, k + 1));
            Finished(v, d, s') || Tracks(v, d, k + 1, c, s', st)
  {
    hide Edges, Measured, Recorded, Lagged, LongEnough;
    var j := k + 1;
    assert v.tau[j - 1] <= v.r[j] <= v.tau[j] && v.tau[j] - v.tau[j - 1] <= TICKS - BREAK_THRSHD;
    TrueDifference(v.tau[j], st);
    if c < EDGES {
      NotLate(v, d, j, c);
      if s.mode != Init {
        assert v.e[c] - v.e[c - 1] < BREAK_THRSHD - d;
      }
    }
  }

  /** A measured pulse is within `d` of the true one. */
  lemma PulseRecorded(v: Env, d: nat, off: nat, lens: seq<u32>, c: nat, st: nat, tau: nat, len: u32)
    requires |v.e| == EDGES && Recorded(v, d, off, lens)
    requires c < EDGES && c == off + 2 * |lens| + 1
    requires v.e[c - 1] <= st <= v.e[c - 1] + d && v.e[c] <= tau <= v.e[c] + d && len == tau - st
    ensures Recorded(v, d, off, lens + [len])
  {
  }

  /** The first sample in the next level. */
  lemma Turn(v: Env, d: nat, k: nat, c: nat, s: Sampling, st: nat)
    requires Run(v, d) && k + 1 < |v.r| && Tracks(v, d, k, c, s, st)
    requires Edges(v.e, v.r[k + 1]) == c + 1 && c < EDGES
    requires v.e[c] <= v.r[k + 1] && v.tau[k + 1] <= v.e[c] + d
    ensures var s' := OneSample(s, SampleAt(v, k + 1));
            Finished(v, d, s') || Tracks(v, d, k + 1, c + 1, s', v.tau[k + 1])
  {
    hide Edges, Measured, Recorded, Lagged, LongEnough, Response, InTime;
    LevelsInRange(v, d);
    var j := k + 1;
    assert v.tau[j - 1] <= v.r[j] <= v.tau[j] && v.tau[j] - v.tau[j - 1] <= TICKS - BREAK_THRSHD;
    TrueDifference(v.tau[j], st);
    if s.mode == High {
      PulseRecorded(v, d, Offset(v), s.lens, c, st, v.tau[j], Sub32(v.tau[j] % TICKS, s.start));
    }
  }

  lemma LevelsInRange(v: Env, d: nat)
    requires Run(v, d)
    ensures |v.e| == EDGES
  {
  }

  /** One sample later the loop tracks the line again, or it is finished. */
  lemma Step(v: Env, d: nat, k: nat, s: Sampling, st: nat) returns (st': nat)
    requires Run(v, d) && k + 1 < |v.r| && Tracks(v, d, k, Edges(v.e, v.r[k]), s, st)
    ensures var s' := OneSample(s, SampleAt(v, k + 1));
            Finished(v, d, s') || Tracks(v, d, k + 1, Edges(v.e, v.r[k + 1]), s', st')
  {
    hide Tracks, Finished, SampleAt, Edges, OneSample;
    var c, c' := Edges(v.e, v.r[k]), Edges(v.e, v.r[k + 1]);
    OneEdgeAtMost(v, d, k);
    if c' == c {
      Stay(v, d, k, c, s, st);
      st' := st;
    } else {
      Turn(v, d, k, c, s, st);
      st' := v.tau[k + 1];
    }
  }

  /** From any sample at which it tracks the line, the loop comes to its end as it should. */
  lemma {:induction false} FollowFinishes(v: Env, d: nat, k: nat, s: Sampling, st: nat)
    requires Run(v, d) && k < |v.r| && Tracks(v, d, k, Edges(v.e, v.r[k]), s, st)
    ensures Finished(v, d, Follow(v, s, k + 1))
    decreases |v.r| - k
  {
    hide Edges, Measured, Recorded, SampleAt, OneSample;
    NotLast(v, d, k, s, st);
    var st' := Step(v, d, k, s, st);
    var s' := OneSample(s, SampleAt(v, k + 1));
    if Finished(v, d, s') {
      assert Follow(v, s', k + 2) == s';
    } else {
      FollowFinishes(v, d, k + 1, s', st');
    }
  }

  /** The last sample is behind the last edge, by more than a break. */
  lemma LastSample(v: Env, d: nat)
    requires Run(v, d)
    ensures Edges(v.e, v.r[|v.r| - 1]) == EDGES
    ensures v.e[EDGES - 1] + d + BREAK_THRSHD <= v.tau[|v.r| - 1]
  {
    hide Edges, Lagged, InTime;
    var r := v.r[|v.r| - 1];
    EdgesBound(v.e, r);
    Increasing(v.e, Edges(v.e, r), EDGES);
  }

  /** The loop is finished before the samples run out. */
  lemma NotLast(v: Env, d: nat, k: nat, s: Sampling, st: nat)
    requires Run(v, d) && k < |v.r| && Tracks(v, d, k, Edges(v.e, v.r[k]), s, st)
    ensures k + 1 < |v.r|
  {
    hide Edges, Recorded, Run;
    if k + 1 == |v.r| {
      LastSample(v, d);
    }
  }

  /** Where the first sample can be: the bus idle, in the response pulse, or behind it. */
  lemma FirstLevel(v: Env, d: nat)
    requires Run(v, d)
    ensures var c := Edges(v.e, v.r[0]);
            && c <= 2 && v.s0 <= v.tau[0] && v.e[0] < v.e[1]
            && (c == 0 ==> v.r[0] < v.e[0]) && (c > 0 ==> v.e[c - 1] <= v.tau[0])
            && (v.r[0] < v.e[1] <==> c <= 1)
            && (c % 2 == 0 ==> v.tau[0] < v.s0 + BREAK_THRSHD)
  {
    hide Edges, Lagged;
    var c := Edges(v.e, v.r[0]);
    EdgesBound(v.e, v.r[0]);
    Increasing(v.e, 2, c);
    if c % 2 == 0 {
      NotLate(v, d, 0, c);
    }
  }

  lemma NothingRecorded(v: Env, d: nat, off: nat)
    requires |v.e| == EDGES
    ensures Recorded(v, d, off, [])
  {
  }

  lemma FirstSample(v: Env, d: nat)
    requires Run(v, d)
    ensures Edges(v.e, v.r[0]) <= 2
    ensures var s := OneSample(Begin(v.s0 % TICKS), SampleAt(v, 0));
            Tracks(v, d, 0, Edges(v.e, v.r[0]), s, if s.mode == Init then v.s0 else v.tau[0])
  {
    FirstLevel(v, d);
    hide Edges, Recorded, Ordered, Response, Lagged, InTime, LongEnough;
    NothingRecorded(v, d, Offset(v));
    if Edges(v.e, v.r[0]) % 2 == 0 {
      TrueDifference(v.tau[0], v.s0);
    }
  }

  // ---------------------------------------------------------------- the decoder inverts the encoder

  /** The sensor encodes five bytes: bit `k` is the width of the high level from edge 3 + 2k on. */
  predicate Sends(v: Env, d: nat, data: seq<bv8>)
    requires |v.e| == EDGES
  {
    && |data| == DTA_BITS / 8
    && forall k :: 0 <= k < DTA_BITS ==>
      if MsbBitAt(data, k) then v.e[4 + 2 * k] > v.e[3 + 2 * k] + 50 + d
      else v.e[4 + 2 * k] + d <= v.e[3 + 2 * k] + 50
  }

  lemma RecordedDecodes(v: Env, d: nat, lens: seq<u32>, data: seq<bv8>)
    requires |v.e| == EDGES && |v.r| > 0 && Sends(v, d, data)
    requires Recorded(v, d, Offset(v), lens) && |lens| == (if Offset(v) == 1 then SIGNALS else DTA_BITS)
    ensures Encodes(lens, DataStart(lens), data)
  {
    var off, j := Offset(v), DataStart(lens);
    forall k | 0 <= k < DTA_BITS ensures MsbBitAt(data, k) <==> lens[j + k] > 50 {
      assert Measured(v, d, off, j + k, lens[j + k]);
      assert off + 2 * (j + k) == 3 + 2 * k;
    }
  }

  /** Every sampling of a response with lag at most `d` ends with the bytes that were sent, whether
      the response pulse was caught or missed, and across the wrap of the 32-bit clock; the bytes
      are accepted exactly when their checksum is right. */
  lemma DecoderInvertsEncoder(v: Env, d: nat, data: seq<bv8>)
    requires Run(v, d) && Sends(v, d, data)
    ensures var s := SampleAll(Begin(v.s0 % TICKS), Observed(v));
            && s.ended && |data| == 5
            && forall res: Probe :: Probed(s.lens, res) <==>
                 res == if (data[0] as nat + data[1] as nat + data[2] as nat + data[3] as nat) % 256
                           == data[4] as nat then Read(data) else Corrupted
  {
    FiveBytes(v, d, data);
    ChecksumIsSum(data);
    hide SampleAll, Run, Finished, Recorded, Sends, Encodes, Probed, Observed, ChecksumOk;
    WholeRun(v, d);
    var s := SampleAll(Begin(v.s0 % TICKS), Observed(v));
    EndsFull(v, d, s);
    RecordedDecodes(v, d, s.lens, data);
    OnlyResult(s.lens, data);
  }

  lemma FiveBytes(v: Env, d: nat, data: seq<bv8>)
    requires |v.e| == EDGES && Sends(v, d, data)
    ensures |data| == 5
  {
  }

  lemma WholeRun(v: Env, d: nat)
    requires Run(v, d)
    ensures |v.e| == EDGES && |v.r| == |v.tau| > 0
    ensures Finished(v, d, SampleAll(Begin(v.s0 % TICKS), Observed(v)))
  {
    hide Edges, Tracks, Finished, SampleAt, OneSample, Lagged, Response, InTime, LongEnough, SampleAll;
    LevelsInRange(v, d);
    FirstSample(v, d);
    var b := Begin(v.s0 % TICKS);
    var s0 := OneSample(b, SampleAt(v, 0));
    FollowFinishes(v, d, 0, s0, if s0.mode == Init then v.s0 else v.tau[0]);
    FollowIsSampleAll(v, b, 0);
    assert Observed(v)[0..] == Observed(v);
    assert Follow(v, b, 0) == Follow(v, s0, 1);
  }

  lemma EndsFull(v: Env, d: nat, s: Sampling)
    requires |v.e| == EDGES && |v.r| > 0 && Finished(v, d, s)
    ensures s.ended && |s.lens| >= DTA_BITS && Recorded(v, d, Offset(v), s.lens)
    ensures |s.lens| == (if Offset(v) == 1 then SIGNALS else DTA_BITS)
  {
  }

  lemma OnlyResult(lens: seq<u32>, data: seq<bv8>)
    requires |lens| >= DTA_BITS && Encodes(lens, DataStart(lens), data)
    ensures forall res: Probe :: Probed(lens, res) <==>
              res == if ChecksumOk(data) then Read(data) else Corrupted
  {
    forall other | Encodes(lens, DataStart(lens), other) ensures other == data {
      SameBits(other, data);
    }
  }

  // ---------------------------------------------------------------- an encoder

  /** How long the level behind edge `c` lasts when a sensor sends `data`: the response, 80us low and
      80us high, then for each bit 50us low and 26us or 70us high, and 50us low at the end. */
  function Width(data: seq<bv8>, c: nat): nat
    requires |data| == DTA_BITS / 8
  {
    if c < 2 then 80
    else if c % 2 == 0 || c >= EDGES - 2 then 50
    else if MsbBitAt(data, (c - 3) / 2) then 70 else 26
  }

  function EdgeTime(data: seq<bv8>, c: nat): nat
    requires |data| == DTA_BITS / 8
  {
    if c == 0 then 10 else EdgeTime(data, c - 1) + Width(data, c - 1)
  }

  /** The line of a sensor sending `data`, from a clock reading of `s0` on, sampled at every tick from
      `from` ticks later on. */
  function Encode(data: seq<bv8>, s0: nat, from: nat): Env
    requires |data| == DTA_BITS / 8
  {
    var n := EdgeTime(data, EDGES - 1) + BREAK_THRSHD + 2;
    var ticks := seq(n, k requires 0 <= k < n => s0 + from + k);
    Env(seq(EDGES, c requires 0 <= c < EDGES => s0 + EdgeTime(data, c)), ticks, ticks, s0)
  }

  lemma EncodedLine(data: seq<bv8>, s0: nat, from: nat)
    requires |data| == DTA_BITS / 8
    ensures Response(Encode(data, s0, from), 1) && Sends(Encode(data, s0, from), 1, data)
  {
    hide MsbBitAt;
    var v := Encode(data, s0, from);
    forall c | 0 < c < EDGES ensures 1 < v.e[c] - v.e[c - 1] < BREAK_THRSHD - 1 {
      assert v.e[c] - v.e[c - 1] == Width(data, c - 1);
    }
    forall k | 0 <= k < DTA_BITS
      ensures v.e[4 + 2 * k] - v.e[3 + 2 * k] == if MsbBitAt(data, k) then 70 else 26
    {
      assert EdgeTime(data, 4 + 2 * k) == EdgeTime(data, 3 + 2 * k) + Width(data, 3 + 2 * k);
      assert (3 + 2 * k - 3) / 2 == k;
    }
  }

  /** Read at every tick, a line is seen in time and without a lag. */
  lemma TickByTick(v: Env, from: nat)
    requires Response(v, 1) && from < 170
    requires v.s0 <= v.e[0] <= v.e[1] == v.s0 + 90 && v.e[2] == v.s0 + 170 && v.s0 <= v.e[EDGES - 1]
    requires v.r == v.tau && |v.r| == v.e[EDGES - 1] - v.s0 + BREAK_THRSHD + 2
    requires forall k :: 0 <= k < |v.r| ==> v.r[k] == v.s0 + from + k
    ensures Ordered(v) && Lagged(v, 1) && InTime(v, 1) && LongEnough(v, 1)
  {
    forall c | 0 < c < |v.e| ensures v.e[c - 1] < v.e[c] {
      assert 1 < v.e[c] - v.e[c - 1];
    }
  }

  lemma EncodedSampling(data: seq<bv8>, s0: nat, from: nat)
    requires |data| == DTA_BITS / 8 && from < 170
    requires Response(Encode(data, s0, from), 1)
    ensures var v := Encode(data, s0, from);
            Ordered(v) && Lagged(v, 1) && InTime(v, 1) && LongEnough(v, 1)
  {
    hide Response, Ordered, Lagged, InTime, LongEnough, MsbBitAt;
    var v := Encode(data, s0, from);
    assert EdgeTime(data, 0) == 10 && EdgeTime(data, 1) == 90 && EdgeTime(data, 2) == 170;
    hide EdgeTime, Width;
    assert v.e[0] == s0 + EdgeTime(data, 0) && v.e[1] == s0 + 90 && v.e[2] == s0 + 170;
    assert v.e[EDGES - 1] == s0 + EdgeTime(data, EDGES - 1);
    TickByTick(v, from);
  }

  /** The encoder's lines are runs the decoder is right on, whether the response pulse is seen
      (sampling from 0) or missed (sampling from within it). */
  lemma EncodedRuns(data: seq<bv8>, s0: nat, from: nat)
    requires |data| == DTA_BITS / 8 && from < 170
    ensures Run(Encode(data, s0, from), 1) && Sends(Encode(data, s0, from), 1, data)
  {
    hide Encode, Sends, Ordered, Response, Lagged, InTime, LongEnough;
    EncodedLine(data, s0, from);
    EncodedSampling(data, s0, from);
  }

  /** Encoding five bytes and decoding the line gives the bytes back, at every phase of the clock. */
  lemma RoundTrip(data: seq<bv8>, s0: nat, from: nat)
    requires |data| == DTA_BITS / 8 && from < 170
    ensures var s := SampleAll(Begin(s0 % TICKS), Observed(Encode(data, s0, from)));
            s.ended && Probed(s.lens,
              if (data[0] as nat + data[1] as nat + data[2] as nat + data[3] as nat) % 256
                 == data[4] as nat then Read(data) else Corrupted)
  {
    hide Run, Sends, SampleAll, Probed, Observed, ChecksumOk;
    EncodedRuns(data, s0, from);
    DecoderInvertsEncoder(Encode(data, s0, from), 1, data);
  }

  // ---------------------------------------------------------------- any line at all

  /** Clock readings at true times `tau`, behind `s0`, never more than `g` apart; any levels. */
  predicate Paced(s0: nat, tau: seq<nat>, g: nat) {
    && (|tau| > 0 ==> s0 <= tau[0] <= s0 + g)
    && forall k :: 0 < k < |tau| ==> tau[k - 1] <= tau[k] <= tau[k - 1] + g
  }

  predicate ReadAt(xs: seq<Sample>, tau: seq<nat>) {
    |xs| == |tau| && forall k :: 0 <= k < |xs| ==> xs[k].tick == tau[k] % TICKS
  }

  /** How many levels the loop has been in: the initial one and two for each pulse. */
  function Levels(s: Sampling): nat {
    match s.mode
    case Init => 1 + 2 * |s.lens|
    case Down => 2 + 2 * |s.lens|
    case High => 3 + 2 * |s.lens|
  }

  const MAX_LEVELS := 83

  /** The true time by which `n` levels have been left. */
  function Budget(s0: nat, n: nat, g: nat): nat { s0 + n * (BREAK_THRSHD + g) }

  lemma BudgetSteps(s0: nat, n: nat, g: nat)
    ensures Budget(s0, n + 1, g) == Budget(s0, n, g) + BREAK_THRSHD + g
    ensures n <= MAX_LEVELS ==> Budget(s0, n, g) <= Budget(s0, MAX_LEVELS, g)
  {
    assert (n + 1) * (BREAK_THRSHD + g) == n * (BREAK_THRSHD + g) + (BREAK_THRSHD + g);
    if n <= MAX_LEVELS {
      assert MAX_LEVELS * (BREAK_THRSHD + g) == n * (BREAK_THRSHD + g) + (MAX_LEVELS - n) * (BREAK_THRSHD + g);
    }
  }

  lemma PacedHead(now: nat, xs: seq<Sample>, tau: seq<nat>, g: nat)
    requires Paced(now, tau, g) && ReadAt(xs, tau) && xs != []
    ensures |tau| == |xs| && now <= tau[0] <= now + g && xs[0].tick == tau[0] % TICKS
  {
  }

  lemma PacedTail(now: nat, xs: seq<Sample>, tau: seq<nat>, g: nat)
    requires Paced(now, tau, g) && ReadAt(xs, tau) && xs != []
    ensures Paced(tau[0], tau[1..], g) && ReadAt(xs[1..], tau[1..])
  {
    forall k | 0 < k < |tau| - 1 ensures tau[1..][k - 1] <= tau[1..][k] <= tau[1..][k - 1] + g {
      assert tau[k + 1 - 1] <= tau[k + 1] <= tau[k + 1 - 1] + g;
    }
    if |tau| > 1 {
      assert tau[1 - 1] <= tau[1] <= tau[1 - 1] + g;
    }
  }

  /** A loop entered into its present level at true time `st`, reading on from time `now`. */
  lemma {:induction false} StillRunning(
      s0: nat, xs: seq<Sample>, tau: seq<nat>, g: nat, s: Sampling, st: nat, now: nat)
    requires g <= TICKS - BREAK_THRSHD && Paced(now, tau, g) && ReadAt(xs, tau)
    requires !s.ended && |s.lens| < SIGNALS && s.start == st % TICKS && st <= now < st + BREAK_THRSHD
    requires st <= Budget(s0, Levels(s) - 1, g)
    ensures !SampleAll(s, xs).ended ==>
      (if |tau| == 0 then now else tau[|tau| - 1]) < Budget(s0, MAX_LEVELS, g)
    ensures |SampleAll(s, xs).lens| <= SIGNALS
    decreases |xs|
  {
    hide Paced, Budget;
    BudgetSteps(s0, Levels(s) - 1, g);
    BudgetSteps(s0, Levels(s), g);
    if xs != [] {
      PacedHead(now, xs, tau, g);
      var s', t := OneSample(s, xs[0]), tau[0];
      TrueDifference(t, st);
      if !s'.ended {
        PacedTail(now, xs, tau, g);
        if s'.mode == s.mode {
          StillRunning(s0, xs[1..], tau[1..], g, s', st, t);
        } else {
          assert Levels(s') == Levels(s) + 1;
          StillRunning(s0, xs[1..], tau[1..], g, s', t, t);
        }
      } else {
        assert SampleAll(s', xs[1..]) == s';
      }
    }
  }

  /** Whatever the line does, siglens is never overrun, and while the clock is read at least every
      `g` ticks the loop is left within 83 levels of less than 500 + g ticks each. */
  lemma LoopIsBounded(s0: nat, xs: seq<Sample>, tau: seq<nat>, g: nat)
    requires g <= TICKS - BREAK_THRSHD && Paced(s0, tau, g) && ReadAt(xs, tau)
    ensures |SampleAll(Begin(s0 % TICKS), xs).lens| <= 41
    ensures |tau| > 0 && tau[|tau| - 1] >= s0 + 83 * (500 + g) ==> SampleAll(Begin(s0 % TICKS), xs).ended
  {
    StillRunning(s0, xs, tau, g, Begin(s0 % TICKS), s0, s0);
  }
}
