/**
  MemPoolT: chunks handed out from blocks, with a free list threaded through the unused ones.
 */
module MemPool {
  // ----- the counters, over whole runs

  /** `free` is the length of the free list; the other numbers are fields of MemPoolT. */
  datatype Counts = Counts(blocks: nat, free: nat, current: int, allocs: nat, max: int, untracked: int)

  const EMPTY := Counts(0, 0, 0, 0, 0, 0)

  function AllocCounts(c: Counts, perBlock: nat): Counts
    requires perBlock >= 1
  {
    var grown := if c.free == 0 then c.(blocks := c.blocks + 1, free := perBlock) else c;
    grown.(free := grown.free - 1, current := c.current + 1, allocs := c.allocs + 1,
           max := if c.current + 1 > c.max then c.current + 1 else c.max, untracked := c.untracked + 1)
  }

  function FreeCounts(c: Counts): Counts {
    c.(free := c.free + 1, current := c.current - 1)
  }

  function TrackCounts(c: Counts): Counts {
    c.(untracked := c.untracked - 1)
  }

  datatype Op = Alloc | Free

  /** The chunks in use after a run. */
  function Live(run: seq<Op>): int {
    if run == [] then 0 else Live(run[..|run| - 1]) + if run[|run| - 1].Alloc? then 1 else -1
  }

  /** Only live chunks are freed. */
  predicate Legal(run: seq<Op>) {
    forall i | 0 <= i <= |run| :: Live(run[..i]) >= 0
  }

  /** The most chunks ever in use at once. */
  function HighWater(run: seq<Op>): (n: int)
    ensures n >= 0
  {
    if run == [] then 0
    else
      var before := HighWater(run[..|run| - 1]);
      if Live(run) > before then Live(run) else before
  }

  function After(run: seq<Op>, perBlock: nat): Counts
    requires perBlock >= 1
  {
    if run == [] then EMPTY
    else
      var before := After(run[..|run| - 1], perBlock);
      if run[|run| - 1].Alloc? then AllocCounts(before, perBlock) else FreeCounts(before)
  }

  /** n / d, rounded up. */
  function CeilDiv(n: int, d: nat): (q: nat)
    requires d >= 1
    decreases if n > 0 then n else 0
  {
    if n <= 0 then 0 else 1 + CeilDiv(n - d, d)
  }

  lemma {:induction false} CeilDivIs(n: int, d: nat, q: nat)
    requires d >= 1 && (q - 1) * d < n <= q * d
    ensures CeilDiv(n, d) == q
  {
    if q > 0 {
      assert (q - 1) * d == q * d - d && (q - 2) * d == (q - 1) * d - d;
      assert (q - 1) * d >= 0;
      CeilDivIs(n - d, d, q - 1);
    }
  }

  /** The chunks of all blocks are either in use or on the free list; there are as few blocks as the high-water mark allows. */
  predicate Consistent(c: Counts, perBlock: nat)
    requires perBlock >= 1
  {
    && c.current + c.free == c.blocks * perBlock && 0 <= c.current <= c.max
    && (c.blocks == 0 <==> c.max == 0)
    && (c.blocks > 0 ==> (c.blocks - 1) * perBlock < c.max <= c.blocks * perBlock)
  }

  lemma AllocConsistent(c: Counts, perBlock: nat)
    requires perBlock >= 1 && Consistent(c, perBlock)
    ensures Consistent(AllocCounts(c, perBlock), perBlock)
  {
    assert (c.blocks + 1) * perBlock == c.blocks * perBlock + perBlock;
  }

  lemma FewestBlocks(c: Counts, perBlock: nat)
    requires perBlock >= 1 && Consistent(c, perBlock)
    ensures c.blocks == CeilDiv(c.max, perBlock)
  {
    CeilDivIs(c.max, perBlock, c.blocks);
  }

  // The total count goes up with each chunk handed out, and a chunk counts as untracked until SetTracked.
  lemma {:induction false} TotalAllocs(run: seq<Op>, perBlock: nat)
    requires perBlock >= 1
    ensures After(run, perBlock).allocs == Allocs(run) == After(run, perBlock).untracked
  {
    if run != [] {
      TotalAllocs(run[..|run| - 1], perBlock);
    }
  }

  function Allocs(run: seq<Op>): nat {
    if run == [] then 0 else Allocs(run[..|run| - 1]) + if run[|run| - 1].Alloc? then 1 else 0
  }

  // Over any run that frees only live chunks, the number of blocks is the high-water mark
  // divided by the block size, rounded up.
  lemma {:induction false} BlocksFollowHighWater(run: seq<Op>, perBlock: nat)
    requires perBlock >= 1 && Legal(run)
    ensures var c := After(run, perBlock);
            && c.current == Live(run) && c.max == HighWater(run)
            && c.current + c.free == c.blocks * perBlock
            && c.blocks == CeilDiv(HighWater(run), perBlock)
    ensures Consistent(After(run, perBlock), perBlock)
    decreases |run|
  {
    if run != [] {
      var init := run[..|run| - 1];
      assert forall i | 0 <= i <= |init| :: init[..i] == run[..i];
      BlocksFollowHighWater(init, perBlock);
      assert run[..|run|] == run;
      if run[|run| - 1].Alloc? {
        AllocConsistent(After(init, perBlock), perBlock);
      }
    }
    FewestBlocks(After(run, perBlock), perBlock);
  }

  // ----- the pool itself

  /** A chunk; its link is used while it is free. */
  class Chunk {
    var next: Chunk?

    constructor ()
    {
      next := null;
    }
  }

  class MemPoolT {
    const perBlock: nat              // COUNT
    var blockPtrs: seq<seq<Chunk>>   // the chunks of each block, in address order
    var root: Chunk?
    var currentAllocs: int
    var nAllocs: nat
    var maxAllocs: int
    var nUntracked: int
    ghost var free: seq<Chunk>       // the free list, from root on
    ghost var all: set<Chunk>        // the chunks of all blocks

    ghost predicate Valid()
      reads this, free
    {
      perBlock >= 1 && Threaded() && Consistent(Counters(), perBlock)
    }

    /** The free list runs through chunks of the blocks. */
    ghost predicate Threaded()
      reads this, free
    {
      && Linked(free, root, null)
      && (forall c <- free :: c in all)
      && all == ChunksOf(blockPtrs) && |all| == |blockPtrs| * perBlock
      && (forall b <- blockPtrs :: |b| == perBlock)
    }

    /** The chunks that Alloc has handed out and Free has not got back. */
    ghost function LiveChunks(): set<Chunk>
      reads this
    {
      all - (set c | c in free)
    }

    ghost function Counters(): Counts
      reads this
    {
      Counts(|blockPtrs|, |free|, currentAllocs, nAllocs, maxAllocs, nUntracked)
    }

    constructor (perBlock: nat)
      requires perBlock >= 1
      ensures Valid() && Counters() == EMPTY && LiveChunks() == {} && this.perBlock == perBlock
    {
      this.perBlock := perBlock;
      blockPtrs, root, free, all := [], null, [], {};
      currentAllocs, nAllocs, maxAllocs, nUntracked := 0, 0, 0, 0;
    }

    /** A block whose chunks are linked in address order. */
    method NewBlock() returns (block: seq<Chunk>)
      requires perBlock >= 1
      ensures |block| == perBlock && (forall c <- block :: fresh(c)) && Linked(block, block[0], null)
    {
      block := [];
      while |block| < perBlock
        invariant |block| <= perBlock && (forall c <- block :: fresh(c)) && Distinct(block)
      {
        var c := new Chunk();
        block := block + [c];
      }
      var i := 0;
      while i < perBlock - 1
        invariant 0 <= i <= perBlock - 1
        invariant forall c <- block :: fresh(c)
        invariant forall k | 0 <= k < i :: block[k].next == block[k + 1]
      {
        assert block[i] in block;
        block[i].next := block[i + 1];
        i := i + 1;
      }
      assert block[perBlock - 1] in block;
      block[perBlock - 1].next := null;
    }

    /** Needs a new block. */
    method Grow()
      requires perBlock >= 1 && Threaded() && root == null
      modifies this`blockPtrs, this`root, this`free, this`all
      ensures Threaded() && root != null && |free| == perBlock && |blockPtrs| == |old(blockPtrs)| + 1
      ensures LiveChunks() == old(LiveChunks()) && old(all) <= all && fresh(all - old(all))
    {
      hide *;
      var block := NewBlock();
      assert forall c <- block :: c !in all;
      AddBlock(block);
    }

    method AddBlock(block: seq<Chunk>)
      requires perBlock >= 1 && Threaded() && root == null
      requires |block| == perBlock && Linked(block, block[0], null) && forall c <- block :: c !in all
      modifies this`blockPtrs, this`root, this`free, this`all
      ensures Threaded() && root != null && |free| == perBlock && |blockPtrs| == |old(blockPtrs)| + 1
      ensures LiveChunks() == old(LiveChunks()) && all == old(all) + (set c | c in block)
    {
      hide *;
      ghost var added := set c | c in block;
      Parts();
      RootIs();
      OneMoreBlock(blockPtrs, block);
      LinkedDistinct(block);
      MoreChunks(all, |blockPtrs|, perBlock, block);
      BlocksSized(blockPtrs, block, perBlock);
      blockPtrs := blockPtrs + [block];
      root := block[0];
      free, all := block, all + added;
      Whole();
    }

    lemma Parts()
      requires Threaded()
      ensures all == ChunksOf(blockPtrs) && |all| == |blockPtrs| * perBlock && forall b <- blockPtrs :: |b| == perBlock
      ensures LiveChunks() == all - (set c | c in free)
    {
      hide Linked, ChunksOf;
    }

    lemma Whole()
      requires Linked(free, root, null) && (forall c <- free :: c in all)
      requires all == ChunksOf(blockPtrs) && |all| == |blockPtrs| * perBlock && forall b <- blockPtrs :: |b| == perBlock
      ensures Threaded() && LiveChunks() == all - (set c | c in free)
    {
      hide Linked, ChunksOf;
    }

    /** Takes the first free chunk. */
    method Take() returns (result: Chunk)
      requires Threaded() && root != null
      modifies this`root, this`free
      ensures Threaded() && |free| == |old(free)| - 1
      ensures result in all && result !in old(LiveChunks()) && LiveChunks() == old(LiveChunks()) + {result}
    {
      result := root;
      root := result.next;
      LinkedTail(free);
      SetCons(result, free[1..]);
      assert free == [result] + free[1..];
      free := free[1..];
    }

    method Alloc() returns (result: Chunk)
      requires Valid()
      modifies this
      ensures Valid() && Counters() == AllocCounts(old(Counters()), perBlock)
      ensures result !in old(LiveChunks()) && LiveChunks() == old(LiveChunks()) + {result}
      ensures old(all) <= all && fresh(all - old(all)) && result in all
    {
      hide Consistent, Threaded, LiveChunks;
      AllocConsistent(Counters(), perBlock);
      RootIs();
      if root == null {
        Grow();
      }
      result := Take();
      CountAlloc();
    }

    lemma RootIs()
      requires Threaded()
      ensures root == null <==> free == []
    {
    }

    method CountAlloc()
      requires Threaded()
      modifies this`currentAllocs, this`maxAllocs, this`nAllocs, this`nUntracked
      ensures Threaded() && LiveChunks() == old(LiveChunks())
      ensures var c := old(Counters());
              Counters() == c.(current := c.current + 1, allocs := c.allocs + 1, untracked := c.untracked + 1,
                               max := if c.current + 1 > c.max then c.current + 1 else c.max)
    {
      currentAllocs := currentAllocs + 1;
      if currentAllocs > maxAllocs {
        maxAllocs := currentAllocs;
      }
      nAllocs := nAllocs + 1;
      nUntracked := nUntracked + 1;
    }

    /** Gives back a live chunk; null is ignored. */
    method Free(mem: Chunk?)
      requires Valid() && (mem != null ==> mem in LiveChunks())
      modifies this, mem
      ensures Valid()
      ensures mem == null ==> unchanged(this)
      ensures mem != null ==> Counters() == FreeCounts(old(Counters())) && LiveChunks() == old(LiveChunks()) - {mem}
    {
      if mem == null {
        return;
      }
      LiveCount();
      currentAllocs := currentAllocs - 1;
      PutBack(mem);
    }

    /** The chunk goes to the head of the free list. */
    method PutBack(mem: Chunk)
      requires Threaded() && mem in LiveChunks()
      modifies this`root, this`free, mem
      ensures Threaded() && |free| == |old(free)| + 1 && LiveChunks() == old(LiveChunks()) - {mem}
    {
      mem.next := root;
      root := mem;
      LinkedCons(mem, free);
      SetCons(mem, free);
      free := [mem] + free;
    }

    lemma LiveCount()
      requires Valid()
      ensures currentAllocs == |LiveChunks()|
      ensures var idle := set c | c in free; LiveChunks() !! idle && LiveChunks() + idle == ChunksOf(blockPtrs)
    {
      BlockSize(free);
      assert all == LiveChunks() + (set c | c in free);
    }

    method SetTracked()
      requires Valid()
      modifies this`nUntracked
      ensures Valid() && Counters() == TrackCounts(old(Counters()))
    {
      nUntracked := nUntracked - 1;
    }

    method Clear()
      requires perBlock >= 1
      modifies this
      ensures Valid() && Counters() == EMPTY && LiveChunks() == {}
    {
      while blockPtrs != []
        decreases |blockPtrs|
      {
        blockPtrs := blockPtrs[..|blockPtrs| - 1];
      }
      root, free, all := null, [], {};
      currentAllocs, nAllocs, maxAllocs, nUntracked := 0, 0, 0, 0;
    }
  }

  lemma MoreChunks(all: set<Chunk>, n: nat, perBlock: nat, block: seq<Chunk>)
    requires |all| == n * perBlock && |block| == perBlock && Distinct(block) && forall c <- block :: c !in all
    ensures var added := set c | c in block;
            |all + added| == (n + 1) * perBlock && all + added - added == all
  {
    BlockSize(block);
    var added := set c | c in block;
    assert all !! added;
    assert |all + added| == |all| + |added|;
    assert (n + 1) * perBlock == n * perBlock + perBlock;
  }

  lemma BlocksSized(blocks: seq<seq<Chunk>>, block: seq<Chunk>, n: nat)
    requires |block| == n && forall b <- blocks :: |b| == n
    ensures forall b <- blocks + [block] :: |b| == n
  {
  }

  /** The chunks of all blocks. */
  ghost function ChunksOf(blocks: seq<seq<Chunk>>): set<Chunk> {
    set b, c | b in blocks && c in b :: c
  }

  lemma OneMoreBlock(blocks: seq<seq<Chunk>>, block: seq<Chunk>)
    ensures ChunksOf(blocks + [block]) == ChunksOf(blocks) + (set c | c in block)
  {
    var grown := blocks + [block];
    assert block in grown && forall b <- blocks :: b in grown;
  }

  predicate Distinct(s: seq<Chunk>) {
    forall i, j | 0 <= i < j < |s| :: s[i] != s[j]
  }

  /** The chunks of `s` are linked in this order, from `root` to a link to `end`. */
  ghost predicate Linked(s: seq<Chunk>, root: Chunk?, end: Chunk?)
    reads s
  {
    && Distinct(s)
    && root == (if s == [] then end else s[0])
    && (forall i | 0 <= i < |s| - 1 :: s[i].next == s[i + 1])
    && (s != [] ==> s[|s| - 1].next == end)
  }

  lemma LinkedDistinct(s: seq<Chunk>)
    requires s != [] && Linked(s, s[0], null)
    ensures Distinct(s)
  {
  }

  lemma LinkedTail(s: seq<Chunk>)
    requires s != [] && Linked(s, s[0], null)
    ensures Linked(s[1..], s[0].next, null) && s[0] !in s[1..]
  {
    assert forall i | 0 <= i < |s[1..]| :: s[1..][i] == s[i + 1];
    assert |s| > 1 ==> s[0].next == s[1];
  }

  lemma LinkedCons(c: Chunk, s: seq<Chunk>)
    requires Linked(s, c.next, null) && c !in s
    ensures Linked([c] + s, c, null)
  {
    var t := [c] + s;
    assert forall i | 1 <= i < |t| :: t[i] == s[i - 1];
  }

  lemma SetCons(c: Chunk, s: seq<Chunk>)
    ensures (set x | x in [c] + s) == {c} + (set x | x in s)
  {
  }

  lemma {:induction false} BlockSize(s: seq<Chunk>)
    requires Distinct(s)
    ensures |set c | c in s| == |s|
  {
    if s != [] {
      BlockSize(s[1..]);
      assert (set c | c in s) == {s[0]} + (set c | c in s[1..]);
    }
  }
}
