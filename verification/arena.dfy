// The arena: small requests share blocks, large ones get their own.

module Arenas {

  const BLOCK_SIZE: nat := 4096
  const ALIGN: nat := 8
  const POINTER_SIZE: nat := 8

  // The addresses start .. start + len - 1.
  datatype Region = Region(start: nat, len: nat)

  predicate Disjoint(a: Region, b: Region) {
    a.start + a.len <= b.start || b.start + b.len <= a.start
  }

  predicate Inside(a: Region, b: Region) {
    b.start <= a.start && a.start + a.len <= b.start + b.len
  }

  function Total(blocks: seq<Region>): nat {
    if blocks == [] then 0 else Total(blocks[..|blocks| - 1]) + blocks[|blocks| - 1].len
  }

  lemma TotalAppend(blocks: seq<Region>, b: Region)
    ensures Total(blocks + [b]) == Total(blocks) + b.len
  {
    assert (blocks + [b])[..|blocks|] == blocks;
  }

  ghost predicate AllDisjoint(rs: seq<Region>) {
    forall i, j :: 0 <= i < j < |rs| ==> Disjoint(rs[i], rs[j])
  }

  // Every region lies in a block; the one exception is the null pointer that a
  // request for nothing gets from an empty arena.
  ghost predicate OwnedBy(r: Region, blocks: seq<Region>) {
    r == Region(0, 0) || exists b :: 0 <= b < |blocks| && Inside(r, blocks[b])
  }

  ghost predicate Owned(rs: seq<Region>, blocks: seq<Region>) {
    forall i :: 0 <= i < |rs| ==> OwnedBy(rs[i], blocks)
  }

  lemma OwnedMore(rs: seq<Region>, r: Region, blocks: seq<Region>, more: seq<Region>)
    requires Owned(rs, blocks) && OwnedBy(r, blocks + more)
    ensures Owned(rs + [r], blocks + more)
  {
    forall i | 0 <= i < |rs| ensures OwnedBy(rs[i], blocks + more) {
      assert OwnedBy(rs[i], blocks);
      if rs[i] != Region(0, 0) {
        var b :| 0 <= b < |blocks| && Inside(rs[i], blocks[b]);
        assert Inside(rs[i], (blocks + more)[b]);
      }
    }
  }

  ghost predicate Clear(rs: seq<Region>, free: Region) {
    forall i :: 0 <= i < |rs| ==> Disjoint(rs[i], free)
  }

  // Handing out part of the free space, and keeping what is behind it.
  lemma Carve(rs: seq<Region>, free: Region, r: Region, rest: Region)
    requires AllDisjoint(rs) && Clear(rs, free) && Inside(r, free) && Inside(rest, free) && r.start + r.len <= rest.start
    ensures AllDisjoint(rs + [r]) && Clear(rs + [r], rest)
  {
  }

  // What new char[] may return: aligned, and clear of every block in use.
  predicate Fresh(at: nat, size: nat, blocks: seq<Region>) {
    at > 0 && at % ALIGN == 0 && forall b :: 0 <= b < |blocks| ==> Disjoint(Region(at, size), blocks[b])
  }

  // The block a request falls back to.
  function FallbackSize(bytes: nat): nat {
    if bytes > BLOCK_SIZE / 4 then bytes else BLOCK_SIZE
  }

  function Slop(ptr: nat): (r: nat)
    ensures r < ALIGN && (ptr + r) % ALIGN == 0
  {
    if ptr % ALIGN == 0 then 0 else ALIGN - ptr % ALIGN
  }

  lemma ClearOfBlock(rs: seq<Region>, blocks: seq<Region>, b: Region)
    requires Owned(rs, blocks) && forall i :: 0 <= i < |blocks| ==> Disjoint(b, blocks[i])
    ensures Clear(rs, b)
  {
    forall i | 0 <= i < |rs| ensures Disjoint(rs[i], b) { assert OwnedBy(rs[i], blocks); }
  }

  class Arena {
    var ptr: nat                        // 0 while there is no shared block
    var remaining: nat
    var blocks: seq<Region>
    var memoryUsage: nat
    ghost var regions: seq<Region>      // what was handed out
    ghost var handed: nat               // its bytes, padding included
    ghost var current: int              // the shared block, or -1

    ghost predicate Valid()
      reads this
    {
      && AllDisjoint(blocks) && AllDisjoint(regions) && Owned(regions, blocks)
      && Clear(regions, Region(ptr, remaining))
      && -1 <= current < |blocks|
      && (if current == -1 then ptr == 0 && remaining == 0
          else
            && blocks[current].len == BLOCK_SIZE && remaining <= BLOCK_SIZE
            && blocks[current].start + BLOCK_SIZE == ptr + remaining)
      && memoryUsage == Total(blocks) + POINTER_SIZE * |blocks|
      && Frugal()
    }

    // Apart from the shared block, at least three quarters of every block are in use.
    ghost predicate Frugal()
      reads this
    {
      if current == -1 then 3 * Total(blocks) <= 4 * handed
      else 3 * (Total(blocks) - BLOCK_SIZE) <= 4 * (handed - (BLOCK_SIZE - remaining))
    }

    constructor ()
      ensures Valid() && regions == [] && handed == 0 && blocks == []
    {
      ptr, remaining, blocks, memoryUsage := 0, 0, [], 0;
      regions, handed, current := [], 0, -1;
    }

    method AllocateNewBlock(size: nat, at: nat) returns (block: nat)
      requires Fresh(at, size, blocks) && memoryUsage == Total(blocks) + POINTER_SIZE * |blocks| && AllDisjoint(blocks)
      modifies this`blocks, this`memoryUsage
      ensures block == at && blocks == old(blocks) + [Region(at, size)] && AllDisjoint(blocks)
      ensures memoryUsage == Total(blocks) + POINTER_SIZE * |blocks|
      ensures Total(blocks) == old(Total(blocks)) + size
    {
      TotalAppend(blocks, Region(at, size));
      blocks := blocks + [Region(at, size)];
      memoryUsage := memoryUsage + size + POINTER_SIZE;
      return at;
    }

    // want is what the caller keeps of the bytes reserved for it.
    method AllocateFallback(bytes: nat, at: nat, ghost want: nat) returns (result: nat)
      requires Valid() && bytes > remaining && want <= bytes && Fresh(at, FallbackSize(bytes), blocks)
      modifies this
      ensures Valid() && result == at
      ensures regions == old(regions) + [Region(at, want)] && handed == old(handed) + bytes
      ensures if 4 * bytes > BLOCK_SIZE
              then blocks == old(blocks) + [Region(at, bytes)] && ptr == old(ptr) && remaining == old(remaining)
              else blocks == old(blocks) + [Region(at, BLOCK_SIZE)] && ptr == at + bytes && remaining == BLOCK_SIZE - bytes
    {
      hide AllDisjoint, Clear, Owned, Total, Disjoint;
      ghost var block := Region(at, FallbackSize(bytes));
      ghost var r := Region(at, want);
      ClearOfBlock(regions, blocks, block);
      assert OwnedBy(r, blocks + [block]) by { assert Inside(r, (blocks + [block])[|blocks|]); }
      OwnedMore(regions, r, blocks, [block]);
      if bytes > BLOCK_SIZE / 4 {
        StaysClear(regions, block, r);
        result := AllocateNewBlock(bytes, at);
        regions, handed := regions + [r], handed + bytes;
        return;
      }
      Carve(regions, block, r, Region(at + bytes, BLOCK_SIZE - bytes));
      result := AllocateNewBlock(BLOCK_SIZE, at);
      regions, handed, current := regions + [r], handed + bytes, |blocks| - 1;
      ptr := at + bytes;
      remaining := BLOCK_SIZE - bytes;
    }

    // A block of its own leaves the shared block's free space alone.
    lemma StaysClear(rs: seq<Region>, block: Region, r: Region)
      requires Valid() && rs == regions && Clear(rs, block) && Inside(r, block)
      requires forall b :: 0 <= b < |blocks| ==> Disjoint(block, blocks[b])
      ensures AllDisjoint(rs + [r]) && Clear(rs + [r], Region(ptr, remaining))
    {
    }

    method Allocate(bytes: nat, at: nat) returns (result: nat)
      requires Valid() && bytes > 0 && (bytes > remaining ==> Fresh(at, FallbackSize(bytes), blocks))
      modifies this
      ensures Valid()
      ensures regions == old(regions) + [Region(result, bytes)] && handed == old(handed) + bytes
      ensures bytes <= old(remaining) ==> result == old(ptr) && blocks == old(blocks) && ptr == old(ptr) + bytes
    {
      if bytes <= remaining {
        result := ptr;
        Take(0, bytes);
      } else {
        result := AllocateFallback(bytes, at, bytes);
      }
    }

    // Both requests move the pointer past the padding and the bytes.
    method Take(slop: nat, bytes: nat)
      requires Valid() && slop + bytes <= remaining
      modifies this
      ensures Valid() && regions == old(regions) + [Region(old(ptr) + slop, bytes)]
      ensures handed == old(handed) + slop + bytes && ptr == old(ptr) + slop + bytes && blocks == old(blocks)
    {
      hide AllDisjoint, Clear, Owned, Total, Disjoint;
      ghost var r := Region(ptr + slop, bytes);
      Carve(regions, Region(ptr, remaining), r, Region(ptr + slop + bytes, remaining - slop - bytes));
      assert OwnedBy(r, blocks + []) by {
        assert blocks + [] == blocks;
        if current >= 0 { assert Inside(r, blocks[current]); }
      }
      OwnedMore(regions, r, blocks, []);
      assert blocks + [] == blocks;
      regions, handed := regions + [r], handed + slop + bytes;
      ptr := ptr + (slop + bytes);
      remaining := remaining - (slop + bytes);
    }

    method AllocateAligned(bytes: nat, at: nat) returns (result: nat)
      requires Valid()
      requires var needed := bytes + Slop(ptr); needed > remaining ==> Fresh(at, FallbackSize(needed), blocks)
      modifies this
      ensures Valid() && result % ALIGN == 0
      ensures regions == old(regions) + [Region(result, bytes)]
      ensures handed == old(handed) + bytes + Slop(old(ptr))
      ensures bytes + Slop(old(ptr)) <= old(remaining) ==> result - old(ptr) < ALIGN && blocks == old(blocks)
    {
      hide AllDisjoint, Clear, Owned, Total, Disjoint, Arena.Frugal;
      var currentMod := ptr % ALIGN;
      var slop := if currentMod == 0 then 0 else ALIGN - currentMod;
      var needed := bytes + slop;
      if needed <= remaining {
        result := ptr + slop;
        Take(slop, bytes);
      } else {
        result := AllocateFallback(needed, at, bytes);
      }
    }
  }

  // Four thirds of what was handed out, and one block.
  lemma WasteBound(arena: Arena)
    requires arena.Valid()
    ensures 3 * Total(arena.blocks) <= 4 * arena.handed + 3 * BLOCK_SIZE
  {
  }
}
