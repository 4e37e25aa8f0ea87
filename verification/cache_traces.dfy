/** What the cache of src/cache.c does on whole access traces. A trace is the sequence of
    block numbers accessed, oldest first. */
module CacheTraces {
  import opened Options
  import opened Words
  import opened CacheModel
  import opened Division

  function Front<T>(t: seq<T>): seq<T>
    requires t != []
  {
    t[..|t| - 1]
  }

  function Last<T>(t: seq<T>): T
    requires t != []
  {
    t[|t| - 1]
  }

  /** A cache after a trace of addresses. */
  function AccessAll(c: CacheState, trace: seq<u64>): (r: CacheState)
    requires |c.lines| > 0
    ensures |r.lines| == |c.lines|
  {
    if trace == [] then c else AfterAccess(AccessAll(c, Front(trace)), Last(trace))
  }

  function Blocks(trace: seq<u64>): (t: seq<nat>)
    ensures |t| == |trace|
  {
    seq(|trace|, i requires 0 <= i < |trace| => Block(trace[i]))
  }

  /** The block of set `i` seen last, if any. */
  function LastIn(t: seq<nat>, i: nat, n: nat): Option<nat>
    requires n > 0
  {
    if t == [] then None
    else if Last(t) % n == i then Some(Last(t))
    else LastIn(Front(t), i, n)
  }

  /** The number of accesses whose set had last seen a different block, or none. */
  function Misses(t: seq<nat>, n: nat): nat
    requires n > 0
  {
    if t == [] then 0
    else Misses(Front(t), n) + MissOfLast(t, Last(t) % n, n)
  }

  /** Access `j` is a hit when its block was seen before and since then nothing else mapped to its set. */
  ghost predicate HitAt(t: seq<nat>, j: nat, n: nat)
    requires n > 0 && j < |t|
  {
    exists k :: 0 <= k < j && t[k] == t[j] && Undisturbed(t, k, j, n)
  }

  ghost predicate Undisturbed(t: seq<nat>, k: nat, j: nat, n: nat)
    requires n > 0 && k < j < |t|
  {
    forall m :: k < m < j ==> t[m] % n != t[j] % n
  }

  ghost function MissesAt(t: seq<nat>, n: nat): set<nat>
    requires n > 0
  {
    set j: nat | j < |t| && !HitAt(t, j, n)
  }

  // ------------------------------------------------------------------ the lines and the counters

  /** A set has seen no block exactly when nothing mapped to it. */
  lemma {:induction false} LastInNone(t: seq<nat>, i: nat, n: nat)
    requires n > 0
    ensures LastIn(t, i, n).None? <==> forall j :: 0 <= j < |t| ==> t[j] % n != i
  {
    if t != [] {
      LastInNone(Front(t), i, n);
      assert t == Front(t) + [Last(t)];
      if Last(t) % n == i {
        assert t[|t| - 1] % n == i;
      } else if LastIn(t, i, n).Some? {
        var j :| 0 <= j < |Front(t)| && Front(t)[j] % n == i;
        assert t[j] % n == i;
      }
    }
  }

  ghost predicate LastAt(t: seq<nat>, k: nat, i: nat, n: nat)
    requires n > 0
  {
    k < |t| && t[k] % n == i && forall m :: k < m < |t| ==> t[m] % n != i
  }

  /** Otherwise it remembers the block of the latest access that did. */
  lemma {:induction false} LastInSome(t: seq<nat>, i: nat, n: nat) returns (k: nat)
    requires n > 0 && LastIn(t, i, n).Some?
    ensures LastAt(t, k, i, n) && t[k] == LastIn(t, i, n).value
  {
    if Last(t) % n == i {
      k := |t| - 1;
    } else {
      k := LastInSome(Front(t), i, n);
      assert t == Front(t) + [Last(t)];
    }
  }

  lemma {:induction false} LastInIsUnique(t: seq<nat>, k: nat, i: nat, n: nat)
    requires n > 0 && LastAt(t, k, i, n)
    ensures LastIn(t, i, n) == Some(t[k])
  {
    LastInNone(t, i, n);
    var k' := LastInSome(t, i, n);
  }

  /** The hit test of the code (the set's last block is this one) is exactly `HitAt`. */
  lemma {:induction false} LastInIsHit(t: seq<nat>, j: nat, n: nat)
    requires n > 0 && j < |t|
    ensures LastIn(t[..j], t[j] % n, n) == Some(t[j]) <==> HitAt(t, j, n)
  {
    var p, i := t[..j], t[j] % n;
    if LastIn(p, i, n) == Some(t[j]) {
      var k := LastInSome(p, i, n);
      forall m | k < m < j ensures t[m] % n != t[j] % n {
        assert p[m] % n != i;
      }
      assert Undisturbed(t, k, j, n);
    }
    if HitAt(t, j, n) {
      var k :| 0 <= k < j && t[k] == t[j] && Undisturbed(t, k, j, n);
      forall m | k < m < |p| ensures p[m] % n != i {
        assert t[m] % n != t[j] % n;
      }
      LastInIsUnique(p, k, i, n);
    }
  }

  /** The number of misses is the number of accesses that are not hits. */
  lemma {:induction false} MissesCount(t: seq<nat>, n: nat)
    requires n > 0
    ensures Misses(t, n) == |MissesAt(t, n)|
  {
    if t != [] {
      hide HitAt, LastIn;
      var f, e := Front(t), |t| - 1;
      MissesCount(f, n);
      LastInIsHit(t, e, n);
      forall j | 0 <= j < e ensures HitAt(f, j, n) == HitAt(t, j, n) {
        LastInIsHit(t, j, n);
        LastInIsHit(f, j, n);
        assert t[..j] == f[..j];
      }
      assert MissesAt(t, n) == if HitAt(t, e, n) then MissesAt(f, n) else MissesAt(f, n) + {e};
    }
  }

  lemma {:induction false} FreshLines(n: nat, trace: seq<u64>, i: nat)
    requires i < n
    ensures var line := AccessAll(Fresh(n), trace).lines[i];
            && (line.valid <==> LastIn(Blocks(trace), i, n).Some?)
            && (line.valid ==> LastIn(Blocks(trace), i, n) == Some(line.tag))
  {
    if trace != [] {
      BlocksSnoc(trace);
      FreshLines(n, Front(trace), i);
    }
  }

  lemma BlocksSnoc(trace: seq<u64>)
    requires trace != []
    ensures Front(Blocks(trace)) == Blocks(Front(trace))
    ensures Last(Blocks(trace)) == Block(Last(trace))
  {
  }

  lemma {:induction false} FreshHits(n: nat, trace: seq<u64>, addr: u64)
    requires n > 0
    ensures Hits(AccessAll(Fresh(n), trace), addr)
            <==> LastIn(Blocks(trace), Block(addr) % n, n) == Some(Block(addr))
  {
    FreshLines(n, trace, Block(addr) % n);
  }

  lemma {:induction false} FreshCounters(n: nat, trace: seq<u64>)
    requires n > 0
    ensures AccessAll(Fresh(n), trace).accesses == U64(|trace|)
    ensures AccessAll(Fresh(n), trace).misses == U64(Misses(Blocks(trace), n))
  {
    if trace != [] {
      var front, addr := Front(trace), Last(trace);
      FreshCounters(n, front);
      FreshHits(n, front, addr);
      BlocksSnoc(trace);
      U64Sum(|front|, 1);
      U64Sum(Misses(Blocks(front), n), 1);
      assert AccessAll(Fresh(n), trace) == AfterAccess(AccessAll(Fresh(n), front), addr);
    }
  }

  /** After any trace from a fresh cache of `n` sets: line `i` holds the last block of its set,
      and the counters are the number of accesses and of misses, modulo 2^64. */
  lemma {:induction false} FreshAfterTrace(n: nat, trace: seq<u64>)
    requires n > 0
    ensures var c, t := AccessAll(Fresh(n), trace), Blocks(trace);
            && |c.lines| == n
            && (forall i :: 0 <= i < n ==>
                  && (c.lines[i].valid <==> LastIn(t, i, n).Some?)
                  && (c.lines[i].valid ==> LastIn(t, i, n) == Some(c.lines[i].tag)))
            && c.accesses == U64(|t|)
            && c.misses == U64(Misses(t, n))
  {
    FreshCounters(n, trace);
    forall i | 0 <= i < n
      ensures var line := AccessAll(Fresh(n), trace).lines[i];
              && (line.valid <==> LastIn(Blocks(trace), i, n).Some?)
              && (line.valid ==> LastIn(Blocks(trace), i, n) == Some(line.tag))
    {
      FreshLines(n, trace, i);
    }
  }

  /** Every valid line holds a block of its own set. */
  lemma {:induction false} TagsMapToTheirLine(n: nat, trace: seq<u64>, i: nat)
    requires i < n
    ensures var line := AccessAll(Fresh(n), trace).lines[i];
            line.valid ==> line.tag % n == i && line.tag in Blocks(trace)
  {
    FreshAfterTrace(n, trace);
    if AccessAll(Fresh(n), trace).lines[i].valid {
      var k := LastInSome(Blocks(trace), i, n);
    }
  }

  // ------------------------------------------------------------------ hits on addresses

  /** The address lies in the `q`th 64 bytes of memory. */
  predicate InSpan(addr: int, q: nat) { 64 * q <= addr < 64 * q + 64 }

  /** A block is 64 bytes at a multiple of 64. */
  lemma BlockSpan(addr: u64, q: nat)
    ensures Block(addr) == q <==> InSpan(addr, q)
  {
  }

  ghost predicate SameSpan(a: int, b: int) { exists q: nat :: InSpan(a, q) && InSpan(b, q) }

  /** Both addresses' 64 bytes belong to the same of `n` sets. */
  ghost predicate SameSet(a: int, b: int, n: nat)
    requires n > 0
  {
    exists q: nat, r: nat :: InSpan(a, q) && InSpan(b, r) && q % n == r % n
  }

  lemma SpansAndBlocks(a: u64, b: u64, n: nat)
    requires n > 0
    ensures SameSpan(a, b) <==> Block(a) == Block(b)
    ensures SameSet(a, b, n) <==> Block(a) % n == Block(b) % n
  {
    hide Block, InSpan;
    BlockSpan(a, Block(a));
    BlockSpan(b, Block(b));
    if SameSpan(a, b) {
      var q: nat :| InSpan(a, q) && InSpan(b, q);
      BlockSpan(a, q);
      BlockSpan(b, q);
    }
    if SameSet(a, b, n) {
      var q: nat, r: nat :| InSpan(a, q) && InSpan(b, r) && q % n == r % n;
      BlockSpan(a, q);
      BlockSpan(b, r);
    }
  }

  /** What an access does to the next one: it hits in the same 64 bytes, misses in others of the same
      set, and leaves the other sets alone. */
  lemma NextAccess(c: CacheState, a: u64, b: u64)
    requires |c.lines| > 0
    ensures Hits(AfterAccess(c, a), b) <==>
            if SameSet(a, b, |c.lines|) then SameSpan(a, b) else Hits(c, b)
  {
    hide Block;
    SpansAndBlocks(a, b, |c.lines|);
  }

  /** The same 64 bytes were accessed before, and since then nothing else of their set. */
  ghost predicate SeenLast(trace: seq<u64>, addr: u64, n: nat)
    requires n > 0
  {
    exists k :: 0 <= k < |trace| && SameSpan(trace[k], addr)
                && forall m :: k < m < |trace| ==> !SameSet(trace[m], addr, n)
  }

  /** The counters on addresses: from a cold cache and after any accesses, the next one counts, and
      counts as a miss exactly when its 64 bytes were not the last seen of their set. */
  lemma {:induction false} NextCounters(n: nat, trace: seq<u64>, addr: u64)
    requires n > 0
    ensures var c, d := AccessAll(Fresh(n), trace), AccessAll(Fresh(n), trace + [addr]);
            && d.accesses == U64(c.accesses + 1)
            && d.misses == if SeenLast(trace, addr, n) then c.misses else U64(c.misses + 1)
  {
    hide Block, Hits;
    var t := trace + [addr];
    assert Front(t) == trace && Last(t) == addr;
    FreshHits(n, trace, addr);
    SeenLastIsLastIn(n, trace, addr);
  }

  lemma {:induction false} SeenLastIsLastIn(n: nat, trace: seq<u64>, addr: u64)
    requires n > 0
    ensures SeenLast(trace, addr, n) <==> LastIn(Blocks(trace), Block(addr) % n, n) == Some(Block(addr))
  {
    hide Block, LastIn, SameSpan, SameSet;
    var t, b := Blocks(trace), Block(addr);
    forall k | 0 <= k < |trace|
      ensures SameSpan(trace[k], addr) <==> t[k] == b
      ensures SameSet(trace[k], addr, n) <==> t[k] % n == b % n
    {
      SpansAndBlocks(trace[k], addr, n);
    }
    if SeenLast(trace, addr, n) {
      var k :| 0 <= k < |trace| && SameSpan(trace[k], addr)
               && forall m :: k < m < |trace| ==> !SameSet(trace[m], addr, n);
      assert LastAt(t, k, b % n, n);
      LastInIsUnique(t, k, b % n, n);
    }
    if LastIn(t, b % n, n) == Some(b) {
      var k := LastInSome(t, b % n, n);
      assert SameSpan(trace[k], addr);
    }
  }

  /** Three words of one block, then the last and the first byte around a block's end. */
  lemma UnalignedAccesses()
    ensures AccessAll(Fresh(1), [4096, 4100, 4104]).misses == 1
    ensures AccessAll(Fresh(1), [4159, 4160]).misses == 2
  {
    var a, b, c, d: seq<u64>, e := [4096], [4096, 4100], [4096, 4100, 4104], [4159], [4159, 4160];
    assert Front(a) == [] && Front(b) == a && Front(c) == b && Front(d) == [] && Front(e) == d;
    assert AccessAll(Fresh(1), a) == AfterAccess(Fresh(1), 4096);
    assert AccessAll(Fresh(1), b) == AfterAccess(AccessAll(Fresh(1), a), 4100);
    assert AccessAll(Fresh(1), d) == AfterAccess(Fresh(1), 4159);
  }

  // ------------------------------------------------------------------ comparing cache sizes

  /** Whatever hits in a cache of `n` sets hits in a cache of `k * n` sets. */
  lemma HitsCarryOver(t: seq<nat>, j: nat, n: nat, k: nat)
    requires n > 0 && k > 0 && j < |t| && HitAt(t, j, n)
    ensures k * n > 0 && HitAt(t, j, k * n)
  {
    var i :| 0 <= i < j && t[i] == t[j] && Undisturbed(t, i, j, n);
    ModOfMultiple(0, n, k);
    forall m | i < m < j ensures t[m] % (k * n) != t[j] % (k * n) {
      ModOfMultiple(t[m], n, k);
      ModOfMultiple(t[j], n, k);
      assert t[m] % n != t[j] % n;
    }
    assert Undisturbed(t, i, j, k * n);
  }

  lemma {:induction false} MoreSetsFewerMisses(t: seq<nat>, n: nat, k: nat)
    requires n > 0 && k > 0
    ensures k * n > 0 && Misses(t, k * n) <= Misses(t, n)
  {
    ModOfMultiple(0, n, k);
    if t != [] {
      MoreSetsFewerMisses(Front(t), n, k);
      LastInIsHit(t, |t| - 1, n);
      LastInIsHit(t, |t| - 1, k * n);
      if HitAt(t, |t| - 1, n) {
        HitsCarryOver(t, |t| - 1, n, k);
      }
    }
  }

  /** Back at 0 after one other block: a hit exactly when that block maps to another set. */
  lemma {:induction false} ThereAndBack(m: nat, d: nat)
    requires m > 0 && d > 0
    ensures Misses([0, m, 0], d) == if m % d == 0 then 3 else 2
  {
    var one, two, three := [0], [0, m], [0, m, 0];
    assert Front(three) == two && Front(two) == one && Front(one) == [];
    Quotient(0, 0, 0, d);
    assert Misses(one, d) == 1;
    assert LastIn(one, 0, d) == Some(0);
    assert LastIn(one, m % d, d) == if m % d == 0 then Some(0) else LastIn([], m % d, d);
    assert Misses(two, d) == 2;
    assert LastIn(two, 0, d) == if m % d == 0 then Some(m) else Some(0);
  }

  /** Without divisibility a larger cache can miss more. */
  lemma {:induction false} IndivisibleMisses(n: nat, m: nat)
    requires n > 0 && m > 0 && m % n != 0
    ensures Misses([0, m, 0], m) == 3 && Misses([0, m, 0], n) == 2
  {
    ThereAndBack(m, m);
    ThereAndBack(m, n);
    Quotient(m, 1, 0, m);
  }

  /** A cache of `m` sets never misses more than one of `n`, whatever the trace, exactly when `n` divides `m`. */
  lemma {:induction false} FewerMissesExactly(n: nat, m: nat)
    requires n > 0 && m > 0
    ensures (forall t :: Misses(t, m) <= Misses(t, n)) <==> m % n == 0
  {
    if m % n == 0 {
      var k := m / n;
      assert m == k * n && k > 0;
      forall t ensures Misses(t, m) <= Misses(t, n) {
        MoreSetsFewerMisses(t, n, k);
      }
    } else {
      IndivisibleMisses(n, m);
    }
  }

  // ------------------------------------------------------------------ bounds and decomposition

  function Distinct(t: seq<nat>): set<nat> { set b | b in t }

  /** Every distinct block misses at least once, and no access misses twice. */
  lemma {:induction false} MissBounds(t: seq<nat>, n: nat)
    requires n > 0
    ensures |Distinct(t)| <= Misses(t, n) <= |t|
  {
    if t != [] {
      MissBounds(Front(t), n);
      if LastIn(Front(t), Last(t) % n, n) == Some(Last(t)) {
        var k := LastInSome(Front(t), Last(t) % n, n);
        assert Distinct(t) == Distinct(Front(t)) + {Last(t)} == Distinct(Front(t)) by {
          DistinctSnoc(t);
        }
      } else {
        DistinctSnoc(t);
      }
    } else {
      assert Distinct(t) == {};
    }
  }

  lemma DistinctSnoc(t: seq<nat>)
    requires t != []
    ensures Distinct(t) == Distinct(Front(t)) + {Last(t)}
  {
    assert t == Front(t) + [Last(t)];
  }

  ghost predicate ConflictFree(t: seq<nat>, n: nat)
    requires n > 0
  {
    forall a, b :: a in t && b in t && a % n == b % n ==> a == b
  }

  lemma {:induction false} ConflictFreeHit(t: seq<nat>, b: nat, n: nat)
    requires n > 0 && ConflictFree(t + [b], n)
    ensures LastIn(t, b % n, n) == Some(b) <==> b in t
  {
    if LastIn(t, b % n, n).Some? {
      var k := LastInSome(t, b % n, n);
      assert t[k] in t + [b] && b in t + [b];
    }
    LastInNone(t, b % n, n);
  }

  /** Without two blocks sharing a set, each block misses exactly once, in any order of accesses. */
  lemma {:induction false} ConflictFreeMisses(t: seq<nat>, n: nat)
    requires n > 0 && ConflictFree(t, n)
    ensures Misses(t, n) == |Distinct(t)|
  {
    if t != [] {
      var f, b := Front(t), Last(t);
      assert t == f + [b];
      ConflictFreeHit(f, b, n);
      ConflictFreePrefix(f, b, n);
      ConflictFreeMisses(f, n);
      DistinctSnoc(t);
      if b in f {
        assert Distinct(f) + {b} == Distinct(f);
      }
    } else {
      assert Distinct(t) == {};
    }
  }

  lemma ConflictFreePrefix(t: seq<nat>, b: nat, n: nat)
    requires n > 0 && ConflictFree(t + [b], n)
    ensures ConflictFree(t, n)
  {
    assert forall a :: a in t ==> a in t + [b];
  }

  /** The accesses of one set, in order. */
  function OfSet(t: seq<nat>, i: nat, n: nat): seq<nat>
    requires n > 0
  {
    if t == [] then []
    else OfSet(Front(t), i, n) + (if Last(t) % n == i then [Last(t)] else [])
  }

  lemma {:induction false} LastInOwnSet(t: seq<nat>, i: nat, n: nat)
    requires n > 0
    ensures LastIn(OfSet(t, i, n), i, n) == LastIn(t, i, n)
  {
    if t != [] {
      LastInOwnSet(Front(t), i, n);
      if Last(t) % n == i {
        assert Last(OfSet(t, i, n)) == Last(t);
      } else {
        assert OfSet(t, i, n) == OfSet(Front(t), i, n);
      }
    }
  }

  /** Misses of the first `m` sets, each run on its own accesses alone. */
  function SumOverSets(t: seq<nat>, m: nat, n: nat): nat
    requires n > 0
  {
    if m == 0 then 0 else SumOverSets(t, m - 1, n) + Misses(OfSet(t, m - 1, n), n)
  }

  lemma {:induction false} SumOverSetsSnoc(t: seq<nat>, own: nat, m: nat, n: nat)
    requires n > 0 && t != [] && Last(t) % n == own
    ensures SumOverSets(t, m, n) == SumOverSets(Front(t), m, n) + (if own < m then MissOfLast(t, own, n) else 0)
  {
    hide Misses, MissOfLast, OfSet, Front, Last;
    if m > 0 {
      SumOverSetsSnoc(t, own, m - 1, n);
      OneSetSnoc(t, own, m - 1, n);
    }
  }

  function MissOfLast(t: seq<nat>, own: nat, n: nat): nat
    requires n > 0 && t != []
  {
    if LastIn(Front(t), own, n) == Some(Last(t)) then 0 else 1
  }

  lemma {:induction false} OneSetSnoc(t: seq<nat>, own: nat, i: nat, n: nat)
    requires n > 0 && t != [] && Last(t) % n == own
    ensures Misses(OfSet(t, i, n), n) ==
            Misses(OfSet(Front(t), i, n), n)
            + (if own == i then MissOfLast(t, own, n) else 0)
  {
    var mine := OfSet(t, i, n);
    if own == i {
      assert Front(mine) == OfSet(Front(t), i, n) && Last(mine) == Last(t);
      LastInOwnSet(Front(t), i, n);
    } else {
      assert mine == OfSet(Front(t), i, n);
    }
  }

  lemma {:induction false} SumOverSetsEmpty(m: nat, n: nat)
    requires n > 0
    ensures SumOverSets([], m, n) == 0
  {
    if m > 0 {
      SumOverSetsEmpty(m - 1, n);
    }
  }

  /** The sets do not interfere: misses add up set by set. */
  lemma {:induction false} MissesSumOverSets(t: seq<nat>, n: nat)
    requires n > 0
    ensures Misses(t, n) == SumOverSets(t, n, n)
  {
    if t == [] {
      SumOverSetsEmpty(n, n);
    } else {
      MissesSumOverSets(Front(t), n);
      SumOverSetsSnoc(t, Last(t) % n, n, n);
    }
  }

  // ------------------------------------------------------------------ repeated accesses to a block

  /** The trace with each run of accesses to one block reduced to a single access. */
  function Destutter(t: seq<nat>): (r: seq<nat>)
    ensures t != [] ==> r != [] && Last(r) == Last(t)
    ensures t == [] ==> r == []
  {
    if |t| <= 1 then t
    else if Last(t) == Last(Front(t)) then Destutter(Front(t))
    else Destutter(Front(t)) + [Last(t)]
  }

  lemma {:induction false} LastInDestuttered(t: seq<nat>, i: nat, n: nat)
    requires n > 0
    ensures LastIn(Destutter(t), i, n) == LastIn(t, i, n)
  {
    if |t| > 1 {
      LastInDestuttered(Front(t), i, n);
      if Last(t) != Last(Front(t)) {
        assert Front(Destutter(t)) == Destutter(Front(t));
      }
    }
  }

  /** Repeating an access inside the current block adds no miss. */
  lemma {:induction false} StutteringIsFree(t: seq<nat>, n: nat)
    requires n > 0
    ensures Misses(t, n) == Misses(Destutter(t), n)
  {
    if |t| > 1 {
      StutteringIsFree(Front(t), n);
      if Last(t) != Last(Front(t)) {
        assert Front(Destutter(t)) == Destutter(Front(t));
        LastInDestuttered(Front(t), Last(t) % n, n);
      }
    }
  }
}
