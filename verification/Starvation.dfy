/**
 * The starvation simulation of scripts/media-evidence-lazy.py: one verification per tick, one new
 * on-demand file per tick, and a policy that may let the oldest background file go first every
 * `period` ticks. The script's constants are 8 background files, 32 ticks and a period of 4.
 */
module Starvation {
  import opened Basics

  // The background verifications of the aged policy, as (tick, file) in order: file i at tick
  // (i + 1) * period.
  ghost function Schedule(n: nat, period: nat): seq<(nat, nat)> {
    if n == 0 then [] else Schedule(n - 1, period) + [(n * period, n - 1)]
  }

  // The numbers low, low + 1, ..., high - 1.
  function Range(low: nat, high: nat): (r: seq<nat>)
    requires low <= high
    ensures |r| == high - low && forall i :: 0 <= i < |r| ==> r[i] == low + i
  {
    seq(high - low, i => low + i)
  }

  // The demand queue is popped only when it holds a file: every pop below is well formed.
  method Simulate(aged: bool, backgroundFiles: nat, ticks: nat, period: nat)
    returns (verified: nat, provisional: nat, backlog: nat, ghost log: seq<(nat, nat)>, ghost waiting: seq<nat>)
    requires period > 0
    ensures verified <= ticks
    ensures verified == if aged then Min(backgroundFiles, ticks / period) else 0
    ensures provisional == backgroundFiles - verified
    ensures backlog == verified
    ensures log == Schedule(verified, period)
    ensures waiting == Range(ticks - backlog + 1, ticks + 1)
  {
    var background := Range(0, backgroundFiles);
    var demand: seq<nat> := [];
    verified, log := 0, [];
    var tick := 0;
    while tick < ticks
      invariant tick <= ticks
      invariant verified <= tick
      invariant verified == if aged then Min(backgroundFiles, tick / period) else 0
      invariant background == Range(verified, backgroundFiles)
      invariant demand == Range(tick - verified + 1, tick + 1)
      invariant log == Schedule(verified, period)
    {
      NextQuotient(tick, period);
      tick := tick + 1;
      demand := demand + [tick];
      var agedTurn := aged && tick % period == 0;
      if agedTurn && background != [] {
        log := log + [(tick, background[0])];
        background := background[1..];
        verified := verified + 1;
      } else {
        demand := demand[1..];
      }
    }
    provisional, backlog, waiting := |background|, |demand|, demand;
  }

  lemma NextQuotient(t: nat, k: nat)
    requires k > 0
    ensures (t + 1) % k == 0 ==> (t + 1) / k == t / k + 1 && (t / k + 1) * k == t + 1
    ensures (t + 1) % k != 0 ==> (t + 1) / k == t / k
  {
    var q, r := t / k, t % k;
    assert t == q * k + r;
    assert (q + 1) * k == q * k + k;
    if r + 1 == k {
      DivUnique(t + 1, k, q + 1);
    } else {
      DivUnique(t + 1, k, q);
    }
  }

  // Every served background file is served at its own multiple of the period, oldest first.
  lemma {:induction false} ScheduleAt(n: nat, period: nat, i: nat)
    requires i < n
    ensures |Schedule(n, period)| == n && Schedule(n, period)[i] == ((i + 1) * period, i)
  {
    if n > 1 { ScheduleAt(n - 1, period, if i < n - 1 then i else 0); }
  }
}
