/** Mixed-width accesses agree with the bytes underneath, and the bounds test of src/memory.c
    is exact. */
module MemoryLaws {
  import opened Words
  import opened Division
  import opened MemoryModel
  import opened Machine

  // ------------------------------------------------------------------ bytes of values

  lemma {:induction false} ByteOfByte(v: nat, k: nat)
    ensures Byte(Byte(v, k), 0) == Byte(v, k)
  {
  }

  /** The first `w` bytes of RAM hold a value exactly when a load of width `w` returns it, cut to width. */
  lemma {:induction false} LoadOfBytes(ram: seq<u8>, i: nat, w: nat, v: nat)
    requires i + w <= |ram|
    requires forall k :: 0 <= k < w ==> ram[i + k] == Byte(v, k)
    ensures Load(ram, i, w) == v % Pow256(w)
    decreases w
  {
    if w > 0 {
      assert ram[i + 0] == Byte(v, 0);
      forall k | 0 <= k < w - 1 ensures ram[i + 1 + k] == Byte(v / TWO8, k) {
        assert ram[i + (k + 1)] == Byte(v, k + 1);
      }
      LoadOfBytes(ram, i + 1, w - 1, v / TWO8);
      LowDigits(v, Pow256(w - 1));
    }
  }

  lemma LowDigits(v: nat, m: nat)
    requires m > 0
    ensures v % TWO8 + TWO8 * ((v / TWO8) % m) == v % (TWO8 * m)
  {
    var q, r := v / TWO8, v % TWO8;
    var q', r' := q / m, q % m;
    assert v == q' * (TWO8 * m) + (TWO8 * r' + r) by {
      assert TWO8 * (q' * m + r') + r == q' * (TWO8 * m) + (TWO8 * r' + r);
    }
    assert TWO8 * r' + r < TWO8 * m;
    Quotient(v, q', TWO8 * r' + r, TWO8 * m);
  }

  // ------------------------------------------------------------------ stores

  /** A store of width `w` changes exactly the `w` bytes it covers. */
  lemma {:induction false} StoreAt(ram: seq<u8>, i: nat, w: nat, v: nat, j: nat)
    requires i + w <= |ram| && j < |ram|
    ensures Store(ram, i, w, v)[j] == if i <= j < i + w then Byte(v, j - i) else ram[j]
    decreases w
  {
    if w > 0 {
      StoreAt(ram, i, w - 1, v, j);
    }
  }

  datatype StoreOp = StoreOp(i: nat, w: nat, v: nat)
  {
    predicate Covers(j: nat) { i <= j < i + w }
  }

  ghost predicate Inside(ops: seq<StoreOp>, size: nat) {
    forall k :: 0 <= k < |ops| ==> ops[k].i + ops[k].w <= size
  }

  function ApplyAll(ram: seq<u8>, ops: seq<StoreOp>): (r: seq<u8>)
    requires Inside(ops, |ram|)
    ensures |r| == |ram|
    decreases |ops|
  {
    if ops == [] then ram
    else
      var last := ops[|ops| - 1];
      assert Inside(ops[..|ops| - 1], |ram|);
      Store(ApplyAll(ram, ops[..|ops| - 1]), last.i, last.w, last.v)
  }

  lemma {:induction false} ApplyAllCons(ram: seq<u8>, op: StoreOp, ops: seq<StoreOp>)
    requires Inside([op] + ops, |ram|)
    ensures Inside([op], |ram|) && Inside(ops, |ram|)
    ensures ApplyAll(ram, [op] + ops) == ApplyAll(ApplyAll(ram, [op]), ops)
    decreases |ops|
  {
    hide Store;
    var all := [op] + ops;
    assert all[0] == op && forall k :: 0 <= k < |ops| ==> ops[k] == all[k + 1];
    if ops == [] {
      assert all == [op];
    } else {
      var n := |ops| - 1;
      assert all[..n + 1] == [op] + ops[..n];
      ApplyAllCons(ram, op, ops[..n]);
    }
  }

  lemma {:induction false} ApplyOne(ram: seq<u8>, op: StoreOp)
    requires op.i + op.w <= |ram|
    ensures Inside([op], |ram|) && ApplyAll(ram, [op]) == Store(ram, op.i, op.w, op.v)
  {
    hide Store;
    assert [op][..0] == [];
  }

  /** Whatever the widths and overlaps: a byte holds what the last store covering it put there,
      or what it held before. */
  lemma {:induction false} LastWriterWins(ram: seq<u8>, ops: seq<StoreOp>, j: nat, k: nat)
    requires Inside(ops, |ram|) && j < |ram| && k <= |ops|
    requires forall m :: k <= m < |ops| ==> !ops[m].Covers(j)
    requires k > 0 ==> ops[k - 1].Covers(j)
    ensures ApplyAll(ram, ops)[j] == if k > 0 then Byte(ops[k - 1].v, j - ops[k - 1].i) else ram[j]
    decreases |ops|
  {
    if ops != [] {
      var front, last := ops[..|ops| - 1], ops[|ops| - 1];
      StoreAt(ApplyAll(ram, front), last.i, last.w, last.v, j);
      if k < |ops| {
        LastWriterWins(ram, front, j, k);
      }
    }
  }

  /** The single-byte stores of the bytes of `v` at the offsets listed. */
  function ByteStores(i: nat, v: nat, order: seq<nat>): (ops: seq<StoreOp>)
    ensures |ops| == |order|
  {
    seq(|order|, k requires 0 <= k < |order| => StoreOp(i + order[k], 1, Byte(v, order[k])))
  }

  /** A wide store leaves the RAM of its single-byte stores made in any order, repetitions allowed. */
  lemma {:induction false} BytesInAnyOrder(ram: seq<u8>, i: nat, w: nat, v: nat, order: seq<nat>)
    requires i + w <= |ram|
    requires forall k :: 0 <= k < |order| ==> order[k] < w
    requires forall b :: 0 <= b < w ==> b in order
    ensures Inside(ByteStores(i, v, order), |ram|)
    ensures ApplyAll(ram, ByteStores(i, v, order)) == Store(ram, i, w, v)
  {
    hide Store, ApplyAll, Byte;
    var ops := ByteStores(i, v, order);
    forall j | 0 <= j < |ram| ensures ApplyAll(ram, ops)[j] == Store(ram, i, w, v)[j] {
      StoreAt(ram, i, w, v, j);
      if i <= j < i + w {
        assert j - i in order;
        var k := LastOf(order, j - i);
        LastWriterWins(ram, ops, j, k + 1);
        ByteOfByte(v, j - i);
      } else {
        LastWriterWins(ram, ops, j, 0);
      }
    }
  }

  lemma {:induction false} LastOf(s: seq<nat>, x: nat) returns (k: nat)
    requires x in s
    ensures k < |s| && s[k] == x && forall m :: k < m < |s| ==> s[m] != x
  {
    if s[|s| - 1] == x {
      k := |s| - 1;
    } else {
      k := LastOf(s[..|s| - 1], x);
    }
  }

  // ------------------------------------------------------------------ loads after stores

  /** A wide load is the little-endian sum of byte loads. */
  lemma LoadIsSumOfBytes(ram: seq<u8>, i: nat)
    requires i + 8 <= |ram|
    ensures Load(ram, i, 8) ==
            Load(ram, i, 1) + 0x100 * Load(ram, i + 1, 1) + 0x1_0000 * Load(ram, i + 2, 1)
            + 0x100_0000 * Load(ram, i + 3, 1) + 0x1_0000_0000 * Load(ram, i + 4, 1)
            + 0x100_0000_0000 * Load(ram, i + 5, 1) + 0x1_0000_0000_0000 * Load(ram, i + 6, 1)
            + 0x100_0000_0000_0000 * Load(ram, i + 7, 1)
  {
    hide Load;
    LowHalf(ram, i);
    LowHalf(ram, i + 4);
    LoadFour(ram, i);
  }

  lemma {:induction false} LowHalf(ram: seq<u8>, i: nat)
    requires i + 4 <= |ram|
    ensures Load(ram, i, 4) ==
            Load(ram, i, 1) + 0x100 * Load(ram, i + 1, 1) + 0x1_0000 * Load(ram, i + 2, 1)
            + 0x100_0000 * Load(ram, i + 3, 1)
  {
    OneByte(ram, i);
    OneByte(ram, i + 1);
    OneByte(ram, i + 2);
    OneByte(ram, i + 3);
    assert Load(ram, i + 2, 2) == ram[i + 2] + TWO8 * Load(ram, i + 3, 1);
  }

  lemma {:induction false} OneByte(ram: seq<u8>, i: nat)
    requires i < |ram|
    ensures Load(ram, i, 1) == ram[i]
  {
    assert Load(ram, i + 1, 0) == 0;
  }

  /** Eight bytes are four and four above them. */
  lemma {:induction false} LoadFour(ram: seq<u8>, i: nat)
    requires i + 8 <= |ram|
    ensures Load(ram, i, 8) == Load(ram, i, 4) + TWO32 * Load(ram, i + 4, 4)
  {
    hide Load;
    LoadMore(ram, i, 7, 3);
    LoadMore(ram, i + 1, 6, 2);
    LoadMore(ram, i + 2, 5, 1);
    LoadMore(ram, i + 3, 4, 0);
    NoBytes(ram, i + 4);
  }

  lemma {:induction false} NoBytes(ram: seq<u8>, i: nat)
    requires i <= |ram|
    ensures Load(ram, i, 0) == 0
  {
  }

  lemma {:induction false} LoadMore(ram: seq<u8>, i: nat, w: nat, v: nat)
    requires i + 1 + w <= |ram| && v <= w
    ensures Load(ram, i, w + 1) == ram[i] + TWO8 * Load(ram, i + 1, w)
    ensures Load(ram, i, v + 1) == ram[i] + TWO8 * Load(ram, i + 1, v)
  {
  }

  ghost predicate DisjointFrom(ops: seq<StoreOp>, i: nat, w: nat) {
    forall k, j :: 0 <= k < |ops| && i <= j < i + w ==> !ops[k].Covers(j)
  }

  /** A load returns what a store of the same place and width put there, cut to that width, after any
      number of stores elsewhere. */
  lemma {:induction false} LoadAfterStores(ram: seq<u8>, i: nat, w: nat, v: nat, ops: seq<StoreOp>)
    requires i + w <= |ram| && Inside(ops, |ram|) && DisjointFrom(ops, i, w)
    ensures Load(ApplyAll(Store(ram, i, w, v), ops), i, w) == v % Pow256(w)
  {
    var r := ApplyAll(Store(ram, i, w, v), ops);
    forall k | 0 <= k < w ensures r[i + k] == Byte(v, k) {
      LastWriterWins(Store(ram, i, w, v), ops, i + k, 0);
      StoreAt(ram, i, w, v, i + k);
    }
    LoadOfBytes(r, i, w, v);
  }

  lemma Pow256Values()
    ensures Pow256(1) == 0x100 && Pow256(2) == 0x1_0000 && Pow256(4) == TWO32 && Pow256(8) == TWO64
  {
    assert Pow256(2) == 0x1_0000;
    assert Pow256(4) == TWO32;
    assert Pow256(6) == 0x1_0000_0000_0000;
  }

  /** What a register holds after such a store and load: the low 1, 2, 4 or 8 bytes of the stored
      register, zero-extended by LBU, LHU, LWU and LD, sign-extended by LB, LH and LW. */
  lemma {:induction false} StoreLoadRoundTrip(ram: seq<u8>, i: nat, v: u64, ops: seq<StoreOp>, w: nat)
    requires w in {1, 2, 4, 8} && i + w <= |ram| && Inside(ops, |ram|) && DisjointFrom(ops, i, w)
    ensures var r := Load(ApplyAll(Store(ram, i, w, v), ops), i, w);
            && (w == 1 ==> Extend(r, 1, false) == v % 0x100)
            && (w == 2 ==> Extend(r, 2, false) == v % 0x1_0000)
            && (w == 4 ==> Extend(r, 4, false) == U32(v) && Extend(r, 4, true) == U64(S32(v)))
            && (w == 8 ==> Extend(r, 8, false) == v)
            && (w == 1 ==> Extend(r, 1, true) == U64(if v % 0x100 < 0x80 then v % 0x100 else v % 0x100 - 0x100))
            && (w == 2 ==>
                  Extend(r, 2, true) == U64(if v % 0x1_0000 < 0x8000 then v % 0x1_0000 else v % 0x1_0000 - 0x1_0000))
  {
    hide Store, Load, ApplyAll, DisjointFrom, Inside, Pow256;
    LoadAfterStores(ram, i, w, v, ops);
    Pow256Values();
  }

  // ------------------------------------------------------------------ the bounds test

  /** Whatever the configuration, the overflow-aware test accepts exactly the accesses that start at
      or above the instructions' end and finish within data memory and below 2^64. */
  lemma AccessibleExactly(cfg: Config, addr: u64, w: nat)
    ensures Accessible(cfg, addr, w) <==>
            cfg.instrUpper <= addr && addr + w <= cfg.instrUpper + cfg.memorySz && addr + w <= TWO64 - 1
  {
  }

  /** Hence an accepted access satisfies the later assertion on the RAM index. */
  lemma AccessibleIsInRam(cfg: Config, addr: u64, w: nat)
    requires Accessible(cfg, addr, w) && w > 0
    ensures 0 <= addr - cfg.instrUpper < cfg.memorySz && addr - cfg.instrUpper + w <= cfg.memorySz
  {
    AccessibleExactly(cfg, addr, w);
  }

  /** While data memory ends below 2^64, nothing inside it is refused. */
  lemma NothingInsideRefused(cfg: Config, addr: u64, w: nat)
    requires cfg.instrUpper + cfg.memorySz < TWO64
    ensures Accessible(cfg, addr, w) <==> cfg.instrUpper <= addr && addr + w <= cfg.instrUpper + cfg.memorySz
  {
    AccessibleExactly(cfg, addr, w);
  }
}
