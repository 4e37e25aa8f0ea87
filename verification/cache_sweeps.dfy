/** Exact miss counts for repeated sequential sweeps (the access pattern of
    tests/assembly/52_multiple.S and 53_mult_slower.S) through a cold cache. */
module CacheSweeps {
  import opened Options
  import opened Words
  import opened Division
  import opened CacheModel
  import opened CacheTraces

  /** One sweep over the `len` blocks from `base`. */
  function Pass(base: nat, len: nat): (t: seq<nat>)
    ensures |t| == len
  {
    seq(len, i requires 0 <= i < len => base + i)
  }

  function Sweep(base: nat, len: nat, times: nat): seq<nat>
  {
    if times == 0 then [] else Sweep(base, len, times - 1) + Pass(base, len)
  }

  /** What a set remembers once block `b` is followed by other blocks. */
  lemma {:induction false} StillThere(q: seq<nat>, b: nat, w: seq<nat>, n: nat)
    requires n > 0 && b !in w
    ensures LastIn(q + [b] + w, b % n, n) == Some(b) <==> forall k :: 0 <= k < |w| ==> w[k] % n != b % n
  {
    var t := q + [b] + w;
    if w == [] {
      assert Last(t) == b;
    } else {
      assert Front(t) == q + [b] + Front(w) && Last(t) == Last(w);
      StillThere(q, b, Front(w), n);
      assert w == Front(w) + [Last(w)];
    }
  }

  /** Block `base + p` of a sweep of `len` blocks over `sets` sets has a competitor. */
  predicate Evicted(p: nat, len: nat, sets: nat) { p >= sets || p + sets < len }

  /** The blocks between two visits to block `base + p`. */
  function Between(base: nat, len: nat, p: nat): (w: seq<nat>)
    requires p < len
    ensures |w| == len - 1
    ensures forall k :: 0 <= k < |w| ==>
              w[k] == if k < len - 1 - p then base + p + 1 + k else base + k - (len - 1 - p)
  {
    Pass(base, len)[p + 1..] + Pass(base, len)[..p]
  }

  lemma BetweenConflicts(base: nat, len: nat, p: nat, sets: nat)
    requires p < len && sets > 0
    ensures base + p !in Between(base, len, p)
    ensures (forall k :: 0 <= k < len - 1 ==> Between(base, len, p)[k] % sets != (base + p) % sets)
            <==> !Evicted(p, len, sets)
  {
    var w, b := Between(base, len, p), base + p;
    if p >= sets {
      AddMultiple(b, -1, sets);
      assert w[len - 1 - sets] == b - sets;
    } else if p + sets < len {
      AddMultiple(b, 1, sets);
      assert w[sets - 1] == b + sets;
    } else {
      forall k | 0 <= k < len - 1 ensures w[k] % sets != b % sets {
        if w[k] % sets == b % sets {
          SameRemainderApart(if w[k] < b then w[k] else b, if w[k] < b then b else w[k], sets);
        }
      }
    }
  }

  /** From the second sweep on, a visit misses exactly when the block has a competitor. */
  lemma {:induction false} RevisitMisses(base: nat, len: nat, times: nat, p: nat, sets: nat)
    requires times > 0 && p < len && sets > 0
    ensures LastIn(Sweep(base, len, times) + Pass(base, len)[..p], (base + p) % sets, sets) == Some(base + p)
            <==> !Evicted(p, len, sets)
  {
    var before, pass, b := Sweep(base, len, times - 1), Pass(base, len), base + p;
    assert pass == pass[..p] + [b] + pass[p + 1..];
    assert Sweep(base, len, times) + pass[..p] == (before + pass[..p]) + [b] + Between(base, len, p);
    BetweenConflicts(base, len, p, sets);
    StillThere(before + pass[..p], b, Between(base, len, p), sets);
  }

  /** Misses among the first `p` visits of a later sweep. */
  function Lost(p: nat, len: nat, sets: nat): nat
  {
    if p == 0 then 0 else Lost(p - 1, len, sets) + (if Evicted(p - 1, len, sets) then 1 else 0)
  }

  lemma {:induction false} LostCount(p: nat, len: nat, sets: nat)
    requires p <= len && sets > 0
    ensures len <= sets ==> Lost(p, len, sets) == 0
    ensures sets < len <= 2 * sets ==>
              Lost(p, len, sets) == (if p < len - sets then p else len - sets) + (if p < sets then 0 else p - sets)
    ensures len >= 2 * sets ==> Lost(p, len, sets) == p
  {
    if p > 0 {
      LostCount(p - 1, len, sets);
    }
  }

  lemma {:induction false} LaterSweep(base: nat, len: nat, times: nat, p: nat, sets: nat)
    requires times > 0 && p <= len && sets > 0
    ensures Misses(Sweep(base, len, times) + Pass(base, len)[..p], sets)
            == Misses(Sweep(base, len, times), sets) + Lost(p, len, sets)
  {
    var t := Sweep(base, len, times) + Pass(base, len)[..p];
    if p == 0 {
      assert t == Sweep(base, len, times);
    } else {
      assert Front(t) == Sweep(base, len, times) + Pass(base, len)[..p - 1];
      assert Last(t) == base + p - 1;
      LaterSweep(base, len, times, p - 1, sets);
      RevisitMisses(base, len, times, p - 1, sets);
    }
  }

  lemma {:induction false} FirstSweep(base: nat, len: nat, sets: nat)
    requires sets > 0
    ensures Misses(Pass(base, len), sets) == len
  {
    if len > 0 {
      FirstSweep(base, len - 1, sets);
      assert Front(Pass(base, len)) == Pass(base, len - 1);
      var before, b := Pass(base, len - 1), base + len - 1;
      if LastIn(before, b % sets, sets).Some? {
        var k := LastInSome(before, b % sets, sets);
      }
    }
  }

  lemma OneMoreSweep(base: nat, len: nat, times: nat, sets: nat)
    requires times > 1 && sets > 0
    ensures Misses(Sweep(base, len, times), sets) == Misses(Sweep(base, len, times - 1), sets) + Lost(len, len, sets)
  {
    assert Pass(base, len)[..len] == Pass(base, len);
    LaterSweep(base, len, times - 1, len, sets);
  }

  /** Misses of `times` sweeps: everything fits, or the overflow thrashes, or every visit misses. */
  function SweepCost(len: nat, times: nat, sets: nat): nat
    requires times > 0
  {
    if len <= sets then len
    else if len <= 2 * sets then len + 2 * (times - 1) * (len - sets)
    else times * len
  }

  lemma {:induction false} SweepCostStep(len: nat, times: nat, sets: nat)
    requires times > 1 && sets > 0
    ensures SweepCost(len, times, sets) == SweepCost(len, times - 1, sets) + Lost(len, len, sets)
  {
    LostCount(len, len, sets);
    assert 2 * (times - 1) * (len - sets) == 2 * (times - 2) * (len - sets) + 2 * (len - sets);
  }

  /** Exactly that many misses, wherever the swept blocks lie. At `len == 2 * sets` the two larger
      formulas agree. */
  lemma {:induction false} SweepMisses(base: nat, len: nat, times: nat, sets: nat)
    requires times > 0 && sets > 0
    ensures Misses(Sweep(base, len, times), sets) == SweepCost(len, times, sets)
    ensures len == 2 * sets ==> SweepCost(len, times, sets) == times * len
  {
    hide Misses;
    if len == 2 * sets {
      assert 2 * (times - 1) * sets == (times - 1) * len;
    }
    if times == 1 {
      assert Sweep(base, len, 1) == [] + Pass(base, len) == Pass(base, len);
      FirstSweep(base, len, sets);
    } else {
      SweepMisses(base, len, times - 1, sets);
      OneMoreSweep(base, len, times, sets);
      SweepCostStep(len, times, sets);
    }
  }

  /** The counter of a cold cache after sweeping through memory with any number of accesses
      inside each block before moving on. */
  lemma {:induction false} SweepThroughCache(trace: seq<u64>, base: nat, len: nat, times: nat, sets: nat)
    requires times > 0 && sets > 0
    requires Destutter(Blocks(trace)) == Destutter(Sweep(base, len, times))
    ensures AccessAll(Fresh(sets), trace).misses == U64(SweepCost(len, times, sets))
  {
    FreshCounters(sets, trace);
    StutteringIsFree(Blocks(trace), sets);
    StutteringIsFree(Sweep(base, len, times), sets);
    SweepMisses(base, len, times, sets);
  }
}
