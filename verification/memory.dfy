/** The RAM of src/memory.c: bytes, and little-endian accesses of several bytes to them. */
module MemoryModel {
  import opened Words

  /** Byte `k` of a value, least significant first. */
  function Byte(v: nat, k: nat): u8
    decreases k
  {
    if k == 0 then U8(v) else Byte(v / TWO8, k - 1)
  }

  /** RAM after the low `w` bytes of `v` are stored at index `i`. */
  function Store(ram: seq<u8>, i: nat, w: nat, v: nat): (r: seq<u8>)
    requires i + w <= |ram|
    ensures |r| == |ram|
  {
    if w == 0 then ram else Store(ram, i, w - 1, v)[i + w - 1 := Byte(v, w - 1)]
  }

  function Pow256(w: nat): (r: int)
    ensures r >= 1
  {
    if w == 0 then 1 else TWO8 * Pow256(w - 1)
  }

  /** The unsigned little-endian value of `w` bytes from index `i`. */
  function Load(ram: seq<u8>, i: nat, w: nat): (r: nat)
    requires i + w <= |ram|
    ensures r < Pow256(w)
    decreases w
  {
    if w == 0 then 0 else ram[i] + TWO8 * Load(ram, i + 1, w - 1)
  }

  /** The register image of a w-byte value, sign- or zero-extended to 64 bits. */
  function Extend(v: nat, w: nat, signed: bool): u64
    requires 0 < w
  {
    if signed && v >= Pow256(w) / 2 then U64(v - Pow256(w)) else U64(v)
  }

  class Memory {
    const ram: array?<u8>
    const size: u64

    ghost predicate Valid()
    {
      && (ram == null <==> size == 0)
      && (ram != null ==> ram.Length == size)
    }

    ghost function Contents(): (s: seq<u8>)
      requires Valid()
      reads ram
      ensures |s| == size
    {
      if ram == null then [] else ram[..]
    }

    /** `memory_alloc`: no RAM block at all for size 0, a zeroed one otherwise. */
    constructor (memorySz: u64)
      ensures Valid() && size == memorySz
      ensures ram != null ==> fresh(ram)
      ensures Contents() == seq(memorySz, _ => 0)
    {
      size := memorySz;
      if memorySz > 0 {
        ram := new u8[memorySz](_ => 0);
      } else {
        ram := null;
      }
    }

    /** `memory_getbyte`: the byte as a `char`, which is signed. */
    method GetByte(addr: u64) returns (b: s8)
      requires Valid()
      ensures addr < size ==> U8(b) == Contents()[addr]
      ensures addr >= size ==> b == 0
    {
      if ram == null || addr >= size {
        return 0;
      }
      return S8(ram[addr]);
    }

    /** The store of 1, 2, 4 or 8 bytes through a pointer of that width, on a little-endian host. */
    method Write(i: nat, w: nat, v: u64)
      requires Valid() && i + w <= size && w in {1, 2, 4, 8}
      modifies ram
      ensures Contents() == Store(old(Contents()), i, w, v)
    {
      ghost var was := ram[..];
      ram[i] := Byte(v, 0);
      assert ram[..] == Store(was, i, 1, v);
      if w >= 2 {
        ram[i + 1] := Byte(v, 1);
        assert ram[..] == Store(was, i, 2, v);
      }
      if w >= 4 {
        ram[i + 2] := Byte(v, 2);
        assert ram[..] == Store(was, i, 3, v);
        ram[i + 3] := Byte(v, 3);
        assert ram[..] == Store(was, i, 4, v);
      }
      if w == 8 {
        ram[i + 4] := Byte(v, 4);
        assert ram[..] == Store(was, i, 5, v);
        ram[i + 5] := Byte(v, 5);
        assert ram[..] == Store(was, i, 6, v);
        ram[i + 6] := Byte(v, 6);
        assert ram[..] == Store(was, i, 7, v);
        ram[i + 7] := Byte(v, 7);
      }
    }

    /** The load of 1, 2, 4 or 8 bytes through a pointer of that width, on a little-endian host. */
    method Read(i: nat, w: nat) returns (v: nat)
      requires Valid() && i + w <= size && w in {1, 2, 4, 8}
      ensures v == Load(Contents(), i, w)
    {
      v := ram[i];
      ghost var s := ram[..];
      if w == 1 {
        assert Load(s, i + 1, 0) == 0;
      } else if w == 2 {
        assert Load(s, i + 2, 0) == 0;
        v := v + 0x100 * (ram[i + 1] as int);
      } else if w == 4 {
        assert Load(s, i + 2, 2) == s[i + 2] + TWO8 * Load(s, i + 3, 1);
        v := v + 0x100 * (ram[i + 1] as int) + 0x1_0000 * (ram[i + 2] as int) + 0x100_0000 * (ram[i + 3] as int);
      } else {
        assert Load(s, i + 2, 6) == s[i + 2] + TWO8 * Load(s, i + 3, 5);
        assert Load(s, i + 4, 4) == s[i + 4] + TWO8 * Load(s, i + 5, 3);
        assert Load(s, i + 6, 2) == s[i + 6] + TWO8 * Load(s, i + 7, 1);
        v := v + 0x100 * (ram[i + 1] as int) + 0x1_0000 * (ram[i + 2] as int) + 0x100_0000 * (ram[i + 3] as int)
             + 0x1_0000_0000 * (ram[i + 4] as int) + 0x100_0000_0000 * (ram[i + 5] as int)
             + 0x1_0000_0000_0000 * (ram[i + 6] as int) + 0x100_0000_0000_0000 * (ram[i + 7] as int);
      }
    }
  }
}
