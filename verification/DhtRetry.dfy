/** The retry policy of dht_probe_retried, over every sequence of probe outcomes. */
module DhtRetry {
  import opened Bytes

  /** Result of one probe: success, no response, corrupted data, or any other error. */
  datatype Outcome = Good | NoResp | DtaCrpt | Other(code: int)

  /** Result of the retried probe: that of a probe, or one of the two errors of its own. */
  datatype Result = Of(o: Outcome) | NoDev | DevErr

  predicate Final(o: Outcome) { o == Good || o.Other? }

  /** The first `n` outcomes all call for another probe. */
  predicate Inconclusive(outs: nat -> Outcome, n: nat) {
    forall k :: 0 <= k < n ==> !Final(outs(k))
  }

  /** The first ten probes got no response. */
  predicate TenSilent(outs: nat -> Outcome) {
    forall k :: 0 <= k < 10 ==> outs(k) == NoResp
  }

  /** What the policy is for: with `n` probes allowed, the first conclusive outcome counts, unless
      ten silent probes come first; and the tries can run out. */
  predicate Policy(outs: nat -> Outcome, n: nat, probes: nat, res: Result) {
    && 1 <= probes <= n
    && Inconclusive(outs, probes - 1)
    && match res
       case NoDev => probes == 10 && TenSilent(outs)
       case Of(o) => o == outs(probes - 1) && Final(o) && (probes > 10 ==> !TenSilent(outs))
       case DevErr => probes == n && !Final(outs(n - 1)) && (n >= 10 ==> !TenSilent(outs))
  }

  /** dht_probe_retried. Outcome `k` is that of the k-th probe; both counters are 32 bits wide. */
  method ProbeRetried(outs: nat -> Outcome, nRetries: u32) returns (res: Result, probes: nat)
    ensures Policy(outs, nRetries + 1, probes, res)
  {
    var nTries: u32, cdNoResp: u32 := 0, 10;
    probes := 0;
    while true
      invariant probes <= nRetries && nTries == probes && Inconclusive(outs, probes)
      invariant cdNoResp == 0 ==> exists k :: 0 <= k < probes && k < 10 && outs(k) == DtaCrpt
      invariant cdNoResp > 0 ==> cdNoResp == 10 - probes && forall k :: 0 <= k < probes ==> outs(k) == NoResp
      decreases nRetries - probes
    {
      var ret := outs(probes);
      nTries := (nTries + 1) % 0x1_0000_0000;
      probes := probes + 1;
      match ret {
        case NoResp =>
          if cdNoResp > 0 {
            cdNoResp := cdNoResp - 1;
            if cdNoResp == 0 {
              return NoDev, probes;
            }
          }
        case DtaCrpt =>
          cdNoResp := 0;
        case _ =>
          return Of(ret), probes;
      }
      if (nTries - 1) % 0x1_0000_0000 >= nRetries {
        break;
      }
    }
    res := DevErr;
  }

  /** The policy leaves no choice: it fixes the result and the number of probes. */
  lemma PolicyDecides(outs: nat -> Outcome, n: nat, p: nat, r: Result, p': nat, r': Result)
    requires Policy(outs, n, p, r) && Policy(outs, n, p', r')
    ensures p == p' && r == r'
  {
    SmallerStops(outs, n, p, r, p', r');
    SmallerStops(outs, n, p', r', p, r);
  }

  lemma SmallerStops(outs: nat -> Outcome, n: nat, p: nat, r: Result, p': nat, r': Result)
    requires Policy(outs, n, p, r) && Policy(outs, n, p', r')
    ensures p >= p'
  {
    var last, tenth := outs(p - 1), outs(9);
    assert TenSilent(outs) ==> tenth == NoResp;
  }

  /** "No device" is reported exactly when the first ten probes are allowed and all are silent. */
  lemma NoDevIffTenSilent(outs: nat -> Outcome, n: nat, p: nat, r: Result)
    requires Policy(outs, n, p, r)
    ensures r == NoDev <==> n >= 10 && TenSilent(outs)
  {
    var last := outs(p - 1);
    assert TenSilent(outs) && p <= 10 ==> last == NoResp;
  }

  /** The first outcome that is neither no response nor corrupted data is the result, whatever it is,
      unless ten silent probes came first. */
  lemma FirstConclusive(outs: nat -> Outcome, n: nat, p: nat, r: Result, k: nat)
    requires Policy(outs, n, p, r) && k < n && (outs(k) == Good || outs(k).Other?)
    requires forall j :: 0 <= j < k ==> outs(j) == NoResp || outs(j) == DtaCrpt
    requires k >= 10 ==> exists j :: 0 <= j < 10 && outs(j) != NoResp
    ensures p == k + 1 && r == Of(outs(k))
  {
    var last := outs(p - 1);
  }

  /** Without one the tries run out. */
  lemma NoneConclusive(outs: nat -> Outcome, n: nat, p: nat, r: Result)
    requires Policy(outs, n, p, r)
    requires forall j :: 0 <= j < n ==> outs(j) == NoResp || outs(j) == DtaCrpt
    requires n >= 10 ==> exists j :: 0 <= j < 10 && outs(j) != NoResp
    ensures p == n && r == DevErr
  {
    var last := outs(p - 1);
  }
}
