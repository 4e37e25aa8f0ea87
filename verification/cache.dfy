/** The direct-mapped cache of src/cache.c: which block each line holds, and two counters. */
module CacheModel {
  import opened Words

  const BLOCK_SIZE: int := 64

  datatype Line = Line(valid: bool, tag: u64)

  datatype CacheState = CacheState(lines: seq<Line>, accesses: u64, misses: u64)

  function Block(addr: u64): u64 { addr / BLOCK_SIZE }

  predicate Hits(c: CacheState, addr: u64)
    requires |c.lines| > 0
  {
    var line := c.lines[Block(addr) % |c.lines|];
    line.valid && line.tag == Block(addr)
  }

  /** One access, counters wrapping like the C `unsigned long` they are. */
  function AfterAccess(c: CacheState, addr: u64): (r: CacheState)
    requires |c.lines| > 0
    ensures |r.lines| == |c.lines|
  {
    if Hits(c, addr) then c.(accesses := U64(c.accesses + 1))
    else CacheState(c.lines[Block(addr) % |c.lines| := Line(true, Block(addr))],
                    U64(c.accesses + 1), U64(c.misses + 1))
  }

  function Fresh(n: nat): (c: CacheState)
    ensures |c.lines| == n
  {
    CacheState(seq(n, _ => Line(false, 0)), 0, 0)
  }

  class Cache {
    const lines: array<Line>
    const numSets: u64
    var numAccesses: u64
    var numMisses: u64

    ghost predicate Valid()
    {
      numSets > 0 && lines.Length == numSets
    }

    ghost function Contents(): CacheState
      reads this, lines
    {
      CacheState(lines[..], numAccesses, numMisses)
    }

    constructor (numSets: u64)
      requires numSets > 0
      ensures Valid() && fresh(lines)
      ensures this.numSets == numSets && Contents() == Fresh(numSets)
    {
      this.numSets := numSets;
      lines := new Line[numSets](_ => Line(false, 0));
      numAccesses, numMisses := 0, 0;
    }

    /** `cache_allocate`: refused only for an empty cache; a line count different from
        the number of sets is reported and otherwise ignored. */
    static method Allocate(numCacheLines: u64, numSets: u64) returns (c: Cache?)
      ensures c == null <==> numSets == 0
      ensures c != null ==>
                c.Valid() && fresh(c) && fresh(c.lines) && c.numSets == numSets && c.Contents() == Fresh(numSets)
    {
      if numSets == 0 {
        return null;
      }
      c := new Cache(numSets);
    }

    /** `cache_access` */
    method Access(memAddr: u64)
      requires Valid()
      modifies this, lines
      ensures Contents() == AfterAccess(old(Contents()), memAddr)
    {
      numAccesses := U64(numAccesses + 1);
      var blockAddrTag := memAddr / BLOCK_SIZE;
      var setIndex := blockAddrTag % numSets;
      var line := lines[setIndex];
      if line.valid && line.tag == blockAddrTag {
        // hit: nothing to bring in
      } else {
        numMisses := U64(numMisses + 1);
        lines[setIndex] := Line(true, blockAddrTag);
      }
    }

    /** `cache_statistics` */
    method Statistics() returns (accesses: u64, misses: u64)
      ensures accesses == Contents().accesses && misses == Contents().misses
    {
      return numAccesses, numMisses;
    }
  }
}
