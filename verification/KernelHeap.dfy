/** The kernel heap: a best-fit list of blocks inside one byte array.

    Pointers are offsets. A block header takes 24 bytes; it is modelled as one `Head` cell
    followed by 23 `Tail` cells, so that writing a header destroys the bytes it covers and
    writing bytes over a header destroys the header. */
module KernelHeap {
  import opened Basics

  const HEADER := 24
  const NULL := -1

  datatype Cell = Byte(b: int) | Head(size: nat, free: bool, next: int) | Tail

  /** A block of the list: its header's offset, its payload size, and whether it is free. */
  datatype Block = Block(off: nat, size: nat, free: bool)

  function End(b: Block): nat { b.off + HEADER + b.size }

  predicate Aligned(b: Block) { b.off % 8 == 0 && b.size % 8 == 0 }

  /** The list covers [0, n) without gap or overlap, in steps of eight bytes. */
  ghost predicate Tiles(bs: seq<Block>, n: nat)
  {
    && |bs| > 0 && bs[0].off == 0 && End(bs[|bs| - 1]) == n
    && (forall i :: 0 <= i < |bs| ==> Aligned(bs[i]))
    && (forall i :: 0 <= i < |bs| - 1 ==> bs[i + 1].off == End(bs[i]))
  }

  ghost predicate NoAdjacentFree(bs: seq<Block>)
  {
    forall i :: 0 <= i < |bs| - 1 ==> !(bs[i].free && bs[i + 1].free)
  }

  lemma {:induction false} TilesOrdered(bs: seq<Block>, n: nat, i: nat, j: nat)
    requires Tiles(bs, n) && i < j < |bs|
    ensures End(bs[i]) <= bs[j].off
    decreases j
  {
    if i + 1 >= j {
    } else {
      TilesOrdered(bs, n, i, j - 1);
      assert bs[j].off == End(bs[j - 1]);
    }
  }

  lemma TilesInside(bs: seq<Block>, n: nat, i: nat)
    requires Tiles(bs, n) && i < |bs|
    ensures End(bs[i]) <= n
  {
    if i < |bs| - 1 {
      TilesOrdered(bs, n, i, |bs| - 1);
    }
  }

  /** Different blocks of a tiling have disjoint extents, hence different offsets. */
  lemma TilesDisjoint(bs: seq<Block>, n: nat, b: Block, c: Block)
    requires Tiles(bs, n) && b in bs && c in bs && b != c
    ensures End(b) <= c.off || End(c) <= b.off
  {
    var i :| 0 <= i < |bs| && bs[i] == b;
    var j :| 0 <= j < |bs| && bs[j] == c;
    if i < j {
      TilesOrdered(bs, n, i, j);
    } else {
      TilesOrdered(bs, n, j, i);
    }
  }

  /** Bytes in use: the payload sizes of the allocated blocks. */
  function Live(bs: seq<Block>): nat
  {
    if bs == [] then 0 else Live(bs[..|bs| - 1]) + if bs[|bs| - 1].free then 0 else bs[|bs| - 1].size
  }

  lemma {:induction false} LiveConcat(a: seq<Block>, b: seq<Block>)
    ensures Live(a + b) == Live(a) + Live(b)
    decreases |b|
  {
    if b == [] {
      assert a + b == a;
    } else {
      assert (a + b)[..|a + b| - 1] == a + b[..|b| - 1];
      LiveConcat(a, b[..|b| - 1]);
    }
  }

  lemma LiveOne(b: Block)
    ensures Live([b]) == if b.free then 0 else b.size
  {
    assert [b][..0] == [];
  }

  /** `bs` with its `n` blocks from index `k` on replaced by `mid`. */
  function Splice(bs: seq<Block>, k: nat, n: nat, mid: seq<Block>): seq<Block>
    requires k + n <= |bs|
  {
    bs[..k] + mid + bs[k + n..]
  }

  lemma LiveSplice(bs: seq<Block>, k: nat, n: nat, mid: seq<Block>)
    requires k + n <= |bs|
    ensures Live(Splice(bs, k, n, mid)) == Live(bs) - Live(bs[k..k + n]) + Live(mid)
  {
    LiveConcat(bs[..k] + mid, bs[k + n..]);
    LiveConcat(bs[..k], mid);
    assert bs == bs[..k] + bs[k..k + n] + bs[k + n..];
    LiveConcat(bs[..k] + bs[k..k + n], bs[k + n..]);
    LiveConcat(bs[..k], bs[k..k + n]);
  }

  ghost function Allocated(bs: seq<Block>): set<Block>
  {
    set b | b in bs && !b.free
  }

  /** The allocated blocks determine the whole list: without adjacent free blocks, every gap is one free block. */
  lemma {:induction false} CanonicalFrom(a: seq<Block>, b: seq<Block>, n: nat, k: nat)
    requires Tiles(a, n) && Tiles(b, n) && NoAdjacentFree(a) && NoAdjacentFree(b)
    requires Allocated(a) == Allocated(b)
    requires k <= |a| && k <= |b| && a[..k] == b[..k]
    ensures a == b
    decreases |a| - k
  {
    if k == |a| {
      assert End(a[k - 1]) == n;
      if k < |b| {
        TilesOrdered(b, n, k - 1, k);
        TilesInside(b, n, k);
      }
    } else if k == |b| {
      TilesOrdered(a, n, k - 1, k);
      TilesInside(a, n, k);
    } else {
      SameBlock(a, b, n, k);
      assert a[..k + 1] == a[..k] + [a[k]] && b[..k + 1] == b[..k] + [b[k]];
      CanonicalFrom(a, b, n, k + 1);
    }
  }

  lemma SameStart(a: seq<Block>, b: seq<Block>, n: nat, k: nat)
    requires Tiles(a, n) && Tiles(b, n) && k < |a| && k < |b| && a[..k] == b[..k]
    ensures a[k].off == b[k].off
  {
    if k > 0 {
      assert a[k - 1] == a[..k][k - 1] == b[..k][k - 1] == b[k - 1];
      assert a[k].off == End(a[k - 1]) && b[k].off == End(b[k - 1]);
    }
  }

  /** An allocated block of `a` appears in `b` where the offsets agree. */
  lemma AllocatedAt(a: seq<Block>, b: seq<Block>, n: nat, i: nat, j: nat)
    requires Tiles(a, n) && Tiles(b, n) && i < |a| && j < |b|
    requires Allocated(a) <= Allocated(b)
    requires !a[i].free && a[i].off == b[j].off
    ensures a[i] == b[j]
  {
    assert a[i] in Allocated(a);
    if a[i] != b[j] {
      TilesDisjoint(b, n, a[i], b[j]);
    }
  }

  /** A free block of `b` cannot start where a free block of `a` starts and end earlier. */
  lemma FreeNotShorter(a: seq<Block>, b: seq<Block>, n: nat, k: nat)
    requires Tiles(a, n) && Tiles(b, n) && NoAdjacentFree(b) && Allocated(b) <= Allocated(a)
    requires k < |a| && k < |b| && a[k].off == b[k].off && a[k].free && b[k].free
    ensures b[k].size >= a[k].size
  {
    if b[k].size < a[k].size {
      TilesInside(a, n, k);
      if k == |b| - 1 {
        assert false;
      }
      var c := b[k + 1];
      assert !c.free && c.off == End(b[k]);
      assert c in Allocated(b) && c in a;
      TilesDisjoint(a, n, a[k], c);
    }
  }

  lemma SameBlock(a: seq<Block>, b: seq<Block>, n: nat, k: nat)
    requires Tiles(a, n) && Tiles(b, n) && NoAdjacentFree(a) && NoAdjacentFree(b)
    requires Allocated(a) == Allocated(b)
    requires k < |a| && k < |b| && a[..k] == b[..k]
    ensures a[k] == b[k]
  {
    SameStart(a, b, n, k);
    if !a[k].free {
      AllocatedAt(a, b, n, k, k);
    } else if !b[k].free {
      AllocatedAt(b, a, n, k, k);
    } else {
      FreeNotShorter(a, b, n, k);
      FreeNotShorter(b, a, n, k);
    }
  }

  lemma Canonical(a: seq<Block>, b: seq<Block>, n: nat)
    requires Tiles(a, n) && Tiles(b, n) && NoAdjacentFree(a) && NoAdjacentFree(b)
    requires Allocated(a) == Allocated(b)
    ensures a == b
  {
    CanonicalFrom(a, b, n, 0);
  }

  /** When everything has been freed, the list is the single block that the heap started with. */
  lemma AllFree(bs: seq<Block>, n: nat)
    requires Tiles(bs, n) && NoAdjacentFree(bs) && Allocated(bs) == {}
    ensures n >= HEADER && bs == [Block(0, n - HEADER, true)]
  {
    assert |bs| > 1 ==> !(bs[0].free && bs[0 + 1].free);
    forall i | 0 <= i < |bs| ensures bs[i].free {
      assert bs[i] !in Allocated(bs);
    }
  }

  function HeadOf(b: Block, n: nat): Cell
  {
    Head(b.size, b.free, if End(b) == n then NULL else End(b))
  }

  ghost predicate Headers(cells: seq<Cell>, bs: seq<Block>, n: nat)
  {
    |cells| == n && forall b :: b in bs ==> b.off < n && cells[b.off] == HeadOf(b, n)
  }

  predicate InPayload(b: Block, p: int) { b.off + HEADER <= p < End(b) }

  /** The payloads of the given blocks hold the same cells before and after. */
  ghost predicate PayloadsKept(c0: seq<Cell>, c1: seq<Cell>, live: set<Block>)
  {
    |c0| == |c1| && forall b, p :: b in live && InPayload(b, p) && 0 <= p < |c0| ==> c1[p] == c0[p]
  }

  /** Two adjacent blocks become one. */
  function Join(b: Block, c: Block): Block { Block(b.off, b.size + HEADER + c.size, b.free) }

  lemma JoinAligned(b: Block, c: Block)
    requires Aligned(b) && Aligned(c)
    ensures Aligned(Join(b, c))
  {
  }

  lemma JoinTiles(bs: seq<Block>, n: nat, k: nat)
    requires Tiles(bs, n) && k + 1 < |bs|
    ensures Tiles(Splice(bs, k, 2, [Join(bs[k], bs[k + 1])]), n)
  {
    var r := Splice(bs, k, 2, [Join(bs[k], bs[k + 1])]);
    JoinAligned(bs[k], bs[k + 1]);
    assert bs[k + 1].off == End(bs[k]);
    assert forall i :: 0 <= i < k ==> r[i] == bs[i];
    assert forall i :: k < i < |r| ==> r[i] == bs[i + 1];
    forall i | 0 <= i < |r| - 1 ensures r[i + 1].off == End(r[i]) {
      if i < k {
        assert bs[i + 1].off == End(bs[i]);
      } else {
        assert bs[i + 1 + 1].off == End(bs[i + 1]);
      }
    }
  }

  lemma JoinMembers(bs: seq<Block>, k: nat, b: Block)
    requires k + 1 < |bs| && b in Splice(bs, k, 2, [Join(bs[k], bs[k + 1])])
    ensures b == Join(bs[k], bs[k + 1]) || (b in bs && exists i :: 0 <= i < |bs| && i != k && i != k + 1 && bs[i] == b)
  {
    var r := Splice(bs, k, 2, [Join(bs[k], bs[k + 1])]);
    var i :| 0 <= i < |r| && r[i] == b;
    if i < k {
      assert bs[i] == b;
    } else if i > k {
      assert bs[i + 1] == b;
    }
  }

  /** Merging two free blocks: the cells, the allocated blocks and their bytes agree with the new list. */
  lemma JoinHeaders(cells: seq<Cell>, bs: seq<Block>, n: nat, k: nat)
    requires Tiles(bs, n) && Headers(cells, bs, n) && k + 1 < |bs|
    ensures bs[k].off < n
    ensures var j := Join(bs[k], bs[k + 1]);
            Headers(cells[bs[k].off := HeadOf(j, n)], Splice(bs, k, 2, [j]), n)
  {
    var j := Join(bs[k], bs[k + 1]);
    var cells' := cells[bs[k].off := HeadOf(j, n)];
    forall b | b in Splice(bs, k, 2, [j]) ensures b.off < n && cells'[b.off] == HeadOf(b, n) {
      JoinMembers(bs, k, b);
      if b != j {
        var i :| 0 <= i < |bs| && i != k && i != k + 1 && bs[i] == b;
        if i < k { TilesOrdered(bs, n, i, k); } else { TilesOrdered(bs, n, k, i); }
      }
    }
  }

  lemma JoinAllocated(bs: seq<Block>, k: nat)
    requires k + 1 < |bs| && bs[k].free && bs[k + 1].free
    ensures Allocated(Splice(bs, k, 2, [Join(bs[k], bs[k + 1])])) == Allocated(bs)
    ensures Live(Splice(bs, k, 2, [Join(bs[k], bs[k + 1])])) == Live(bs)
  {
    var j := Join(bs[k], bs[k + 1]);
    var r := Splice(bs, k, 2, [j]);
    forall b | b in Allocated(r) ensures b in Allocated(bs) {
      JoinMembers(bs, k, b);
    }
    forall b | b in Allocated(bs) ensures b in Allocated(r) {
      var i :| 0 <= i < |bs| && bs[i] == b;
      if i < k {
        assert r[i] == b;
      } else {
        assert r[i - 1] == b;
      }
    }
    LiveSplice(bs, k, 2, [j]);
    LiveOne(j);
    assert bs[k..k + 2] == [bs[k]] + [bs[k + 1]];
    LiveConcat([bs[k]], [bs[k + 1]]);
    LiveOne(bs[k]);
    LiveOne(bs[k + 1]);
  }

  const WORD := 0x1_0000_0000_0000_0000

  /** Requests are rounded up to eight bytes in 64-bit arithmetic. */
  function RoundUp(size: nat): (r: nat)
    ensures r % 8 == 0
  {
    (size + 7) % WORD / 8 * 8
  }

  /** Rounding covers the request except in the last seven values, where it wraps to nothing. */
  lemma RoundUpCovers(size: nat)
    requires 0 < size < WORD
    ensures size <= WORD - 8 ==> size <= RoundUp(size) < size + 8
    ensures size > WORD - 8 ==> RoundUp(size) == 0
  {
  }

  predicate Usable(b: Block, size: nat) { b.free && b.size >= size }

  /** Among the first `m` blocks, block `k` is the first of the smallest free blocks that are large enough. */
  ghost predicate BestOf(bs: seq<Block>, size: nat, k: nat, m: nat)
    requires m <= |bs|
  {
    && k < m && Usable(bs[k], size)
    && (forall i :: 0 <= i < m && Usable(bs[i], size) ==> bs[k].size <= bs[i].size)
    && (forall i :: 0 <= i < k && Usable(bs[i], size) ==> bs[k].size < bs[i].size)
  }

  ghost predicate NoneOf(bs: seq<Block>, size: nat, m: nat)
    requires m <= |bs|
  {
    forall i :: 0 <= i < m ==> !Usable(bs[i], size)
  }

  /** The state of the search after `m` blocks: nothing usable yet, or the best block so far. */
  ghost predicate Found(bs: seq<Block>, size: nat, best: int, k: nat, m: nat)
  {
    m <= |bs| && if best == NULL then NoneOf(bs, size, m) else BestOf(bs, size, k, m) && best == bs[k].off
  }

  lemma FoundStep(bs: seq<Block>, size: nat, best: int, k: nat, m: nat)
    requires Found(bs, size, best, k, m) && m < |bs|
    ensures Usable(bs[m], size) && (best == NULL || bs[m].size < bs[k].size) ==>
      Found(bs, size, bs[m].off, m, m + 1) && (bs[m].size == size ==> BestFit(bs, size, m))
    ensures !(Usable(bs[m], size) && (best == NULL || bs[m].size < bs[k].size)) ==> Found(bs, size, best, k, m + 1)
  {
  }

  ghost predicate BestFit(bs: seq<Block>, size: nat, k: nat) { BestOf(bs, size, k, |bs|) }

  ghost predicate NoFit(bs: seq<Block>, size: nat) { NoneOf(bs, size, |bs|) }

  /** Room for the request, a further header and eight more bytes. */
  predicate Splittable(b: Block, size: nat) { b.size >= size + HEADER + 8 }

  function Parts(b: Block, size: nat): seq<Block>
  {
    if Splittable(b, size)
    then [Block(b.off, size, false), Block(b.off + HEADER + size, b.size - size - HEADER, true)]
    else [Block(b.off, b.size, false)]
  }

  /** `mid` covers exactly the extent of `b`. */
  ghost predicate Covers(mid: seq<Block>, b: Block)
  {
    && |mid| > 0 && mid[0].off == b.off && End(mid[|mid| - 1]) == End(b)
    && (forall i :: 0 <= i < |mid| ==> Aligned(mid[i]))
    && (forall i :: 0 <= i < |mid| - 1 ==> mid[i + 1].off == End(mid[i]))
  }

  lemma ReplaceTiles(bs: seq<Block>, n: nat, k: nat, mid: seq<Block>)
    requires Tiles(bs, n) && k < |bs| && Covers(mid, bs[k])
    ensures Tiles(Splice(bs, k, 1, mid), n)
  {
    var r := Splice(bs, k, 1, mid);
    var m := |mid| - 1;
    assert forall i :: 0 <= i < k ==> r[i] == bs[i];
    assert forall i :: k <= i <= k + m ==> r[i] == mid[i - k];
    assert forall i :: k + m < i < |r| ==> r[i] == bs[i - m];
    forall i | 0 <= i < |r| - 1 ensures r[i + 1].off == End(r[i]) {
      if i < k {
        assert bs[i + 1].off == End(bs[i]);
      } else if i < k + m {
        assert mid[i - k + 1].off == End(mid[i - k]);
      } else {
        assert bs[i - m + 1].off == End(bs[i - m]);
      }
    }
  }

  lemma PartsCover(b: Block, size: nat)
    requires Aligned(b) && size % 8 == 0
    ensures Covers(Parts(b, size), b)
  {
  }

  lemma SpliceMembers(bs: seq<Block>, k: nat, mid: seq<Block>, b: Block)
    requires k < |bs| && b in Splice(bs, k, 1, mid)
    ensures b in mid || exists i :: 0 <= i < |bs| && i != k && bs[i] == b
  {
    var r := Splice(bs, k, 1, mid);
    var i :| 0 <= i < |r| && r[i] == b;
    if i < k {
      assert bs[i] == b;
    } else if i < k + |mid| {
      assert mid[i - k] == b;
    } else {
      assert bs[i - |mid| + 1] == b;
    }
  }

  /** Rewriting the inside of one block leaves the other headers alone. */
  lemma ReplaceHeaders(c0: seq<Cell>, c1: seq<Cell>, bs: seq<Block>, n: nat, k: nat, mid: seq<Block>)
    requires Tiles(bs, n) && Headers(c0, bs, n) && k < |bs| && |c1| == n
    requires forall p :: 0 <= p < n && !(bs[k].off <= p < End(bs[k])) ==> c1[p] == c0[p]
    requires forall b :: b in mid ==> b.off < n && c1[b.off] == HeadOf(b, n)
    ensures Headers(c1, Splice(bs, k, 1, mid), n)
  {
    forall b | b in Splice(bs, k, 1, mid) ensures b.off < n && c1[b.off] == HeadOf(b, n) {
      SpliceMembers(bs, k, mid, b);
      if b !in mid {
        var i :| 0 <= i < |bs| && i != k && bs[i] == b;
        if i < k { TilesOrdered(bs, n, i, k); } else { TilesOrdered(bs, n, k, i); }
      }
    }
  }

  /** The allocated blocks after one block was replaced. */
  lemma SpliceAllocated(bs: seq<Block>, n: nat, k: nat, mid: seq<Block>)
    requires Tiles(bs, n) && k < |bs|
    ensures Allocated(Splice(bs, k, 1, mid)) == Allocated(bs) - {bs[k]} + Allocated(mid)
    ensures Live(Splice(bs, k, 1, mid)) == Live(bs) - (if bs[k].free then 0 else bs[k].size) + Live(mid)
  {
    var r := Splice(bs, k, 1, mid);
    forall b | b in Allocated(r) ensures b in Allocated(bs) - {bs[k]} + Allocated(mid) {
      SpliceMembers(bs, k, mid, b);
      if b !in mid {
        var i :| 0 <= i < |bs| && i != k && bs[i] == b;
        if i < k { TilesOrdered(bs, n, i, k); } else { TilesOrdered(bs, n, k, i); }
      }
    }
    forall b | b in Allocated(bs) - {bs[k]} + Allocated(mid) ensures b in Allocated(r) {
      if b in mid {
        var i :| 0 <= i < |mid| && mid[i] == b;
        assert r[k + i] == b;
      } else {
        var i :| 0 <= i < |bs| && bs[i] == b;
        if i < k {
          assert r[i] == b;
        } else {
          assert r[i - 1 + |mid|] == b;
        }
      }
    }
    LiveSplice(bs, k, 1, mid);
    assert bs[k..k + 1] == [bs[k]];
    LiveOne(bs[k]);
  }

  lemma LiveParts(b: Block, size: nat)
    ensures Allocated(Parts(b, size)) == {Block(b.off, if Splittable(b, size) then size else b.size, false)}
    ensures Live(Parts(b, size)) == if Splittable(b, size) then size else b.size
  {
    var p := Parts(b, size);
    if Splittable(b, size) {
      LiveConcat([p[0]], [p[1]]);
      LiveOne(p[0]);
      LiveOne(p[1]);
      assert [p[0]] + [p[1]] == p;
    } else {
      LiveOne(p[0]);
    }
  }

  /** Cells outside one block are not its business: the payloads of all other blocks are kept. */
  lemma OthersKept(c0: seq<Cell>, c1: seq<Cell>, bs: seq<Block>, n: nat, k: nat)
    requires Tiles(bs, n) && k < |bs| && |c0| == |c1| == n
    requires forall p :: 0 <= p < n && !(bs[k].off <= p < End(bs[k])) ==> c1[p] == c0[p]
    ensures PayloadsKept(c0, c1, Allocated(bs) - {bs[k]})
  {
    forall b, p | b in Allocated(bs) - {bs[k]} && InPayload(b, p) && 0 <= p < n ensures c1[p] == c0[p] {
      TilesDisjoint(bs, n, b, bs[k]);
    }
  }

  /** After a free block was split or used up, still no two free blocks touch. */
  lemma PartsNoAdjacent(bs: seq<Block>, k: nat, size: nat)
    requires NoAdjacentFree(bs) && k < |bs| && (k + 1 < |bs| ==> !bs[k + 1].free)
    ensures NoAdjacentFree(Splice(bs, k, 1, Parts(bs[k], size)))
  {
    var mid := Parts(bs[k], size);
    var r := Splice(bs, k, 1, mid);
    assert forall i :: 0 <= i < k ==> r[i] == bs[i];
    assert forall i :: k <= i < k + |mid| ==> r[i] == mid[i - k];
    assert forall i :: k + |mid| <= i < |r| ==> r[i] == bs[i - |mid| + 1];
    forall i | 0 <= i < |r| - 1 ensures !(r[i].free && r[i + 1].free) {
      if i + 1 < k {
        assert !(bs[i].free && bs[i + 1].free);
      } else if i == k + |mid| - 1 {
        assert bs[k + 1] == r[i + 1];
      } else if i >= k + |mid| {
        assert !(bs[i - |mid| + 1].free && bs[i - |mid| + 1 + 1].free);
      }
    }
  }

  /** The heap is an array in memory, so its size is well below a word. */
  type HeapSize = n: nat | n <= WORD - 8

  /** The two counters of the kernel, and what in-place growth left uncounted. */
  datatype Counters = Counters(taken: nat, freed: nat, slack: nat)

  /** The counters after a block of `was` bytes was resized to hold `size` and now has `now` bytes. */
  ghost predicate ResizeCounted(a: Counters, b: Counters, was: nat, size: nat, now: nat, inPlace: bool) {
    if was >= size then now <= was && b == a.(freed := a.freed + (was - now))
    else if inPlace then
      size <= now <= size + HEADER && b == a.(taken := a.taken + (size - was), slack := a.slack + (now - size))
    else b == a.(taken := a.taken + now, freed := a.freed + was)
  }

  /** The cells, the list in them, and the counters. */
  datatype Snap = Snap(cells: seq<Cell>, blocks: seq<Block>, counts: Counters)

  /** A block for `size` bytes is handed out at `r`, or NULL and nothing changes; live payloads are kept. */
  ghost predicate Got(a: Snap, b: Snap, size: nat, r: int, nb: Block)
    requires size < WORD
  {
    && (r == NULL <==> size == 0 || NoFit(a.blocks, RoundUp(size)))
    && (r == NULL ==> b == a)
    && (r != NULL ==>
         && r == nb.off + HEADER && nb.size >= RoundUp(size)
         && nb !in Allocated(a.blocks) && Allocated(b.blocks) == Allocated(a.blocks) + {nb}
         && b.counts == a.counts.(taken := a.counts.taken + nb.size))
    && PayloadsKept(a.cells, b.cells, Allocated(a.blocks))
  }

  /** Block `k` is given back; all other payloads are kept. */
  ghost predicate GaveBack(a: Snap, b: Snap, k: nat)
    requires k < |a.blocks|
  {
    && Allocated(b.blocks) == Allocated(a.blocks) - {a.blocks[k]}
    && b.counts == a.counts.(freed := a.counts.freed + a.blocks[k].size)
    && PayloadsKept(a.cells, b.cells, Allocated(b.blocks))
  }

  /**
   * Block `k` becomes `nb` with room for `size` bytes, at the same place if it can stay there, or NULL and
   * nothing changes. Its first bytes and all other payloads are kept.
   */
  ghost predicate Readjusted(a: Snap, b: Snap, k: nat, size: nat, r: int, nb: Block)
    requires k < |a.blocks|
  {
    && (r == NULL <==> !StaysInPlace(a.blocks, k, size) && NoFit(a.blocks, size))
    && (r == NULL ==> b == a)
    && (r != NULL ==>
         && r == nb.off + HEADER && nb.size >= size
         && (StaysInPlace(a.blocks, k, size) <==> r == a.blocks[k].off + HEADER)
         && Resized(a.cells, a.blocks, b.cells, b.blocks, k, Min(a.blocks[k].size, size), nb)
         && ResizeCounted(a.counts, b.counts, a.blocks[k].size, size, nb.size, StaysInPlace(a.blocks, k, size)))
  }

  /** Block `k` becomes `nb`: its first `len` cells and all other payloads survive. */
  ghost predicate Resized(c0: seq<Cell>, bs: seq<Block>, c1: seq<Cell>, bs1: seq<Block>, k: nat, len: nat, nb: Block)
    requires k < |bs|
  {
    && Allocated(bs1) == Allocated(bs) - {bs[k]} + {nb}
    && PayloadsKept(c0, c1, Allocated(bs) - {bs[k]})
    && SamePrefix(c0, bs[k].off + HEADER, c1, nb.off + HEADER, len)
  }

  /** The four operations, and a store by the program into one of its blocks. */
  datatype Call =
    | Ask(size: nat)
    | AskZeroed(count: nat, size: nat)
    | Adjust(ptr: int, size: nat)
    | GiveBack(ptr: int)
    | Put(ptr: int, offset: nat, value: int)

  predicate Sane(c: Call) {
    match c
    case Ask(size) => size < WORD
    case AskZeroed(count, size) => count < WORD && size < WORD
    case Adjust(_, size) => size < WORD
    case _ => true
  }

  /** The program holds block `k` under the pointer `ptr`. */
  ghost predicate HeldAt(bs: seq<Block>, ptr: int, k: nat) {
    k < |bs| && !bs[k].free && ptr == bs[k].off + HEADER
  }

  /** What `calloc` asks for: nothing when the product does not fit a word. */
  ghost function Total(count: nat, size: nat): (t: nat)
    ensures t < WORD
  {
    if count * size < WORD then count * size else 0
  }

  ghost predicate Zeroed(c: seq<Cell>, ptr: int, len: nat) {
    0 <= ptr && ptr + len <= |c| && forall p :: ptr <= p < ptr + len ==> c[p] == Byte(0)
  }

  /** `r` answers the call in state `a` and leaves `b`. What the program does not hold it cannot touch. */
  ghost predicate Answered(a: Snap, b: Snap, call: Call, r: int)
    requires Sane(call)
  {
    match call
    case Ask(size) => exists nb :: Got(a, b, size, r, nb)
    case AskZeroed(count, size) =>
      (exists nb :: Got(a, b, Total(count, size), r, nb)) && (r != NULL ==> Zeroed(b.cells, r, Total(count, size)))
    case Adjust(ptr, size) =>
      if ptr == NULL then exists nb :: Got(a, b, size, r, nb)
      else if size == 0 then r == NULL && Returned(a, b, ptr)
      else if !Holds(a.blocks, ptr) then r == NULL && b == a
      else exists k, nb :: HeldAt(a.blocks, ptr, k) && Readjusted(a, b, k, RoundUp(size), r, nb)
    case GiveBack(ptr) => r == NULL && Returned(a, b, ptr)
    case Put(ptr, o, value) =>
      r == NULL && if HoldsByte(a.blocks, ptr, o) then Stored(a, b, ptr + o, Byte(value)) else b == a
  }

  /** The program holds a block under the pointer `ptr` that has a byte number `o`. */
  ghost predicate HoldsByte(bs: seq<Block>, ptr: int, o: nat) {
    exists k: nat :: HeldAt(bs, ptr, k) && o < bs[k].size
  }

  ghost predicate Stored(a: Snap, b: Snap, p: int, value: Cell) {
    0 <= p < |a.cells| && b == a.(cells := a.cells[p := value])
  }

  ghost predicate Holds(bs: seq<Block>, ptr: int) {
    exists k :: HeldAt(bs, ptr, k)
  }

  ghost predicate Returned(a: Snap, b: Snap, ptr: int) {
    if Holds(a.blocks, ptr) then exists k :: HeldAt(a.blocks, ptr, k) && GaveBack(a, b, k) else b == a
  }

  /** A state of the heap in which everything adds up. */
  ghost predicate SnapOk(a: Snap, n: nat) {
    && Tiles(a.blocks, n) && NoAdjacentFree(a.blocks) && Headers(a.cells, a.blocks, n)
    && a.counts.taken + a.counts.slack == a.counts.freed + Live(a.blocks)
  }

  /** `calloc` of a product in the last seven word values, with a free block to hand out. */
  ghost predicate Faults(bs: seq<Block>, call: Call) {
    call.AskZeroed? && WORD - 8 < call.count * call.size < WORD && !NoFit(bs, 0)
  }

  /** The run answered its calls one after the other, going through these states. */
  ghost predicate Traced(snaps: seq<Snap>, calls: seq<Call>, results: seq<int>, n: nat)
    requires forall i :: 0 <= i < |calls| ==> Sane(calls[i])
    decreases |results|
  {
    var m := |results|;
    && |snaps| == m + 1 && m <= |calls| && SnapOk(snaps[m], n)
    && (m > 0 ==> Traced(snaps[..m], calls, results[..m - 1], n) && Answered(snaps[m - 1], snaps[m], calls[m - 1], results[m - 1]))
  }

  lemma TracedMore(snaps: seq<Snap>, calls: seq<Call>, results: seq<int>, n: nat, b: Snap, r: int)
    requires forall i :: 0 <= i < |calls| ==> Sane(calls[i])
    requires Traced(snaps, calls, results, n) && |results| < |calls| && SnapOk(b, n)
    requires Answered(snaps[|results|], b, calls[|results|], r)
    ensures Traced(snaps + [b], calls, results + [r], n)
  {
    assert (results + [r])[..|results|] == results && (snaps + [b])[..|results| + 1] == snaps;
  }

  /** The call grows a block at its place. */
  ghost predicate Grows(a: Snap, call: Call)
    requires Sane(call)
  {
    call.Adjust? && call.size != 0 &&
    exists k: nat :: HeldAt(a.blocks, call.ptr, k) && a.blocks[k].size < RoundUp(call.size) && StaysInPlace(a.blocks, k, RoundUp(call.size))
  }

  ghost function Growths(snaps: seq<Snap>, calls: seq<Call>, m: nat): nat
    requires (forall i :: 0 <= i < |calls| ==> Sane(calls[i])) && m <= |snaps| && m <= |calls|
  {
    if m == 0 then 0 else Growths(snaps, calls, m - 1) + if Grows(snaps[m - 1], calls[m - 1]) then 1 else 0
  }

  lemma AnsweredSlack(a: Snap, b: Snap, call: Call, r: int)
    requires Sane(call) && Answered(a, b, call, r)
    ensures b.counts.slack <= a.counts.slack + if Grows(a, call) then HEADER else 0
  {
    if call.Adjust? && call.ptr != NULL && call.size != 0 && Holds(a.blocks, call.ptr) {
      var k, nb :| HeldAt(a.blocks, call.ptr, k) && Readjusted(a, b, k, RoundUp(call.size), r, nb);
    }
  }

  lemma {:induction false} GrowthsPrefix(snaps: seq<Snap>, more: seq<Snap>, calls: seq<Call>, m: nat)
    requires forall i :: 0 <= i < |calls| ==> Sane(calls[i])
    requires m <= |snaps| && m <= |calls| && snaps <= more
    ensures Growths(snaps, calls, m) == Growths(more, calls, m)
  {
    if m == 0 {
    } else {
      GrowthsPrefix(snaps, more, calls, m - 1);
    }
  }

  /** Over a whole run the counters drift by at most a header for every growth in place. */
  lemma {:induction false} SlackOverRun(snaps: seq<Snap>, calls: seq<Call>, results: seq<int>, n: nat)
    requires (forall i :: 0 <= i < |calls| ==> Sane(calls[i])) && Traced(snaps, calls, results, n)
    ensures snaps[|results|].counts.slack <= snaps[0].counts.slack + HEADER * Growths(snaps, calls, |results|)
    decreases |results|
  {
    var m := |results|;
    if m == 0 {
    } else {
      SlackOverRun(snaps[..m], calls, results[..m - 1], n);
      GrowthsPrefix(snaps[..m], snaps, calls, m - 1);
      AnsweredSlack(snaps[m - 1], snaps[m], calls[m - 1], results[m - 1]);
    }
  }

  /** The pointer a call resizes, gives back or stores through. */
  function Names(c: Call): int {
    match c
    case Adjust(ptr, _) => ptr
    case GiveBack(ptr) => ptr
    case Put(ptr, _, _) => ptr
    case _ => NULL
  }

  lemma PutElsewhere(a: Snap, b: Snap, n: nat, ptr: int, o: nat, value: Cell, x: Block)
    requires SnapOk(a, n) && HoldsByte(a.blocks, ptr, o) && Stored(a, b, ptr + o, value)
    requires x in Allocated(a.blocks) && ptr != x.off + HEADER
    ensures PayloadsKept(a.cells, b.cells, {x})
  {
    var k: nat :| HeldAt(a.blocks, ptr, k) && o < a.blocks[k].size;
    TilesDisjoint(a.blocks, n, a.blocks[k], x);
  }

  lemma AnsweredKeeps(a: Snap, b: Snap, n: nat, call: Call, r: int, x: Block)
    requires Sane(call) && SnapOk(a, n) && Answered(a, b, call, r) && x in Allocated(a.blocks) && Names(call) != x.off + HEADER
    ensures x in Allocated(b.blocks) && PayloadsKept(a.cells, b.cells, {x})
  {
    if call.Put? {
      if HoldsByte(a.blocks, call.ptr, call.offset) {
        PutElsewhere(a, b, n, call.ptr, call.offset, Byte(call.value), x);
      }
    } else if call.Adjust? && call.ptr != NULL && call.size != 0 && Holds(a.blocks, call.ptr) {
      var k, nb :| HeldAt(a.blocks, call.ptr, k) && Readjusted(a, b, k, RoundUp(call.size), r, nb);
    }
  }

  lemma TracedBefore(snaps: seq<Snap>, calls: seq<Call>, results: seq<int>, n: nat)
    requires (forall i :: 0 <= i < |calls| ==> Sane(calls[i])) && Traced(snaps, calls, results, n) && results != []
    ensures SnapOk(snaps[|results| - 1], n)
  {
    assert snaps[..|results|][|results| - 1] == snaps[|results| - 1];
  }

  /** Over a whole run a block that no call names stays allocated, and its bytes stay as they are. */
  lemma {:induction false} UntouchedOverRun(snaps: seq<Snap>, calls: seq<Call>, results: seq<int>, n: nat, x: Block)
    requires (forall i :: 0 <= i < |calls| ==> Sane(calls[i])) && Traced(snaps, calls, results, n)
    requires x in Allocated(snaps[0].blocks) && forall i :: 0 <= i < |results| ==> Names(calls[i]) != x.off + HEADER
    ensures x in Allocated(snaps[|results|].blocks) && PayloadsKept(snaps[0].cells, snaps[|results|].cells, {x})
    decreases |results|
  {
    var m := |results|;
    if m == 0 {
    } else {
      UntouchedOverRun(snaps[..m], calls, results[..m - 1], n, x);
      TracedBefore(snaps, calls, results, n);
      AnsweredKeeps(snaps[m - 1], snaps[m], n, calls[m - 1], results[m - 1], x);
    }
  }

  // ----- One byte of the program -----

  /** Byte number `o` of the block under the pointer `ptr`. */
  datatype Spot = Spot(ptr: int, o: nat)

  ghost predicate HasSpot(a: Snap, x: Spot) {
    HoldsByte(a.blocks, x.ptr, x.o) && 0 <= x.ptr + x.o < |a.cells|
  }

  /** Where the byte is after a call that returned `r`, if it is still the program's. */
  function Moved(x: Spot, call: Call, r: int): Option<Spot>
    requires Sane(call)
  {
    match call
    case GiveBack(ptr) => if ptr == x.ptr then None else Some(x)
    case Adjust(ptr, size) =>
      if ptr != x.ptr then Some(x)
      else if size == 0 then None
      else if r == NULL then Some(x)
      else if x.o < RoundUp(size) then Some(Spot(r, x.o)) else None
    case _ => Some(x)
  }

  /** What it then holds. */
  function Rewritten(x: Spot, was: Cell, call: Call): Cell {
    if call.Put? && call.ptr == x.ptr && call.offset == x.o then Byte(call.value) else was
  }

  lemma NotThatLong(bs: seq<Block>, n: nat, ptr: int, o: nat, k: nat)
    requires Tiles(bs, n) && HeldAt(bs, ptr, k) && bs[k].size <= o
    ensures !HoldsByte(bs, ptr, o)
  {
    forall j: nat | HeldAt(bs, ptr, j)
      ensures bs[j].size <= o
    {
      OneHolder(bs, n, ptr, j, k);
    }
  }

  /** Where the byte is after a run. */
  function Followed(x: Spot, calls: seq<Call>, results: seq<int>): Option<Spot>
    requires (forall i :: 0 <= i < |calls| ==> Sane(calls[i])) && |results| <= |calls|
    decreases |results|
  {
    var m := |results|;
    if m == 0 then Some(x) else
    var y := Followed(x, calls, results[..m - 1]);
    if y.None? then None else Moved(y.value, calls[m - 1], results[m - 1])
  }

  /** The value last stored in it, and what it held at first if there is none. */
  function LastStored(x: Spot, was: Cell, calls: seq<Call>, results: seq<int>): Cell
    requires (forall i :: 0 <= i < |calls| ==> Sane(calls[i])) && |results| <= |calls|
    decreases |results|
  {
    var m := |results|;
    if m == 0 then was else
    var y := Followed(x, calls, results[..m - 1]);
    var before := LastStored(x, was, calls, results[..m - 1]);
    if y.None? then before else Rewritten(y.value, before, calls[m - 1])
  }

  /** The program has that byte, and it holds `value`. */
  ghost predicate Reads(a: Snap, x: Spot, value: Cell) {
    HasSpot(a, x) && a.cells[x.ptr + x.o] == value
  }

  lemma HeldSpot(a: Snap, block: Block, o: nat)
    requires block in Allocated(a.blocks) && o < block.size && 0 <= block.off + HEADER + o < |a.cells|
    ensures HasSpot(a, Spot(block.off + HEADER, o))
  {
    var j: nat :| j < |a.blocks| && a.blocks[j] == block;
    assert HeldAt(a.blocks, block.off + HEADER, j);
  }

  /** A byte of a block that a call does not name stays. */
  lemma SpotUnnamed(a: Snap, b: Snap, n: nat, call: Call, r: int, x: Spot, value: Cell)
    requires Sane(call) && SnapOk(a, n) && Answered(a, b, call, r) && Reads(a, x, value) && Names(call) != x.ptr
    ensures Reads(b, x, value)
  {
    var k: nat :| HeldAt(a.blocks, x.ptr, k) && x.o < a.blocks[k].size;
    var block := a.blocks[k];
    AnsweredKeeps(a, b, n, call, r, block);
    assert InPayload(block, x.ptr + x.o);
    HeldSpot(b, block, x.o);
  }

  /** No two blocks are held under one pointer. */
  lemma OneHolder(bs: seq<Block>, n: nat, ptr: int, j: nat, k: nat)
    requires Tiles(bs, n) && HeldAt(bs, ptr, j) && HeldAt(bs, ptr, k)
    ensures j == k
  {
    if j < k {
      TilesOrdered(bs, n, j, k);
    } else if k < j {
      TilesOrdered(bs, n, k, j);
    }
  }

  lemma SpotResized(a: Snap, b: Snap, k: nat, size: nat, nb: Block, o: nat, value: Cell)
    requires k < |a.blocks| && o < a.blocks[k].size && o < size && nb.size >= size
    requires Resized(a.cells, a.blocks, b.cells, b.blocks, k, Min(a.blocks[k].size, size), nb)
    requires Reads(a, Spot(a.blocks[k].off + HEADER, o), value)
    ensures Reads(b, Spot(nb.off + HEADER, o), value)
  {
    var q := nb.off + HEADER + o;
    assert b.cells[q] == a.cells[a.blocks[k].off + HEADER + o];
    HeldSpot(b, nb, o);
  }

  lemma AdjustedBlock(a: Snap, b: Snap, n: nat, ptr: int, size: nat, r: int, k: nat) returns (nb: Block)
    requires 0 < size < WORD && SnapOk(a, n) && Answered(a, b, Adjust(ptr, size), r) && ptr != NULL && HeldAt(a.blocks, ptr, k)
    ensures Readjusted(a, b, k, RoundUp(size), r, nb)
  {
    assert Holds(a.blocks, ptr);
    var i: nat, x :| HeldAt(a.blocks, ptr, i) && Readjusted(a, b, i, RoundUp(size), r, x);
    OneHolder(a.blocks, n, ptr, i, k);
    nb := x;
  }

  lemma SpotReadjusted(a: Snap, b: Snap, k: nat, size: nat, r: int, nb: Block, o: nat, value: Cell)
    requires k < |a.blocks| && o < a.blocks[k].size && Readjusted(a, b, k, size, r, nb)
    requires Reads(a, Spot(a.blocks[k].off + HEADER, o), value) && (r == NULL || o < size)
    ensures Reads(b, Spot(if r == NULL then a.blocks[k].off + HEADER else r, o), value)
  {
    if r != NULL {
      SpotResized(a, b, k, size, nb, o, value);
    }
  }

  lemma SpotAdjusted(a: Snap, b: Snap, n: nat, size: nat, r: int, x: Spot, value: Cell)
    requires 0 < size < WORD && SnapOk(a, n) && Answered(a, b, Adjust(x.ptr, size), r) && Reads(a, x, value) && x.ptr != NULL
    requires r == NULL || x.o < RoundUp(size)
    ensures Reads(b, Spot(if r == NULL then x.ptr else r, x.o), value)
  {
    var k: nat :| HeldAt(a.blocks, x.ptr, k) && x.o < a.blocks[k].size;
    var nb := AdjustedBlock(a, b, n, x.ptr, size, r, k);
    SpotReadjusted(a, b, k, RoundUp(size), r, nb, x.o, value);
  }

  lemma SpotPut(a: Snap, b: Snap, n: nat, call: Call, r: int, x: Spot, value: Cell)
    requires call.Put? && SnapOk(a, n) && Answered(a, b, call, r) && Reads(a, x, value) && call.ptr == x.ptr
    ensures Reads(b, x, Rewritten(x, value, call))
  {
  }

  lemma SpotStep(a: Snap, b: Snap, n: nat, call: Call, r: int, x: Spot, value: Cell)
    requires Sane(call) && SnapOk(a, n) && Answered(a, b, call, r) && Reads(a, x, value) && Moved(x, call, r).Some?
    ensures Reads(b, Moved(x, call, r).value, Rewritten(x, value, call))
  {
    HoldsSomewhere(a, n, x);
    if Names(call) != x.ptr {
      SpotUnnamed(a, b, n, call, r, x, value);
    } else if call.Put? {
      SpotPut(a, b, n, call, r, x, value);
    } else {
      SpotAdjusted(a, b, n, call.size, r, x, value);
    }
  }

  lemma HoldsSomewhere(a: Snap, n: nat, x: Spot)
    requires SnapOk(a, n) && HasSpot(a, x)
    ensures x.ptr != NULL
  {
    var k: nat :| HeldAt(a.blocks, x.ptr, k) && x.o < a.blocks[k].size;
  }

  /**
   * Over a whole run every byte that the program still holds reads as last stored, wherever resizing has
   * moved it.
   */
  lemma {:induction false} StoredOverRun(snaps: seq<Snap>, calls: seq<Call>, results: seq<int>, n: nat, x: Spot, was: Cell)
    requires (forall i :: 0 <= i < |calls| ==> Sane(calls[i])) && Traced(snaps, calls, results, n)
    requires Reads(snaps[0], x, was) && Followed(x, calls, results).Some?
    ensures Reads(snaps[|results|], Followed(x, calls, results).value, LastStored(x, was, calls, results))
    decreases |results|
  {
    var m := |results|;
    if m == 0 {
    } else {
      StoredOverRun(snaps[..m], calls, results[..m - 1], n, x, was);
      TracedBefore(snaps, calls, results, n);
      SpotStep(snaps[m - 1], snaps[m], n, calls[m - 1], results[m - 1], Followed(x, calls, results[..m - 1]).value,
               LastStored(x, was, calls, results[..m - 1]));
    }
  }

  class Heap {
    const n: HeapSize
    const heap: array<Cell>
    var totalAllocated: nat
    var totalFreed: nat
    var blockCount: nat
    ghost var blocks: seq<Block>
    ghost var slack: nat

    /** The list in the cells is the list of blocks. */
    ghost predicate Shaped()
      reads this, heap
    {
      && heap.Length == n
      && Tiles(blocks, n) && Headers(heap[..], blocks, n)
      && blockCount == |blocks|
    }

    /** The counters agree with the list, too; adjacent free blocks are allowed. */
    ghost predicate Linked()
      reads this, heap
    {
      Shaped() && totalAllocated + slack == totalFreed + Live(blocks)
    }

    ghost predicate Valid()
      reads this, heap
    {
      Linked() && NoAdjacentFree(blocks)
    }

    ghost function Counts(): Counters
      reads this
    {
      Counters(totalAllocated, totalFreed, slack)
    }

    ghost function Now(): Snap
      reads this, heap
    {
      Snap(heap[..], blocks, Counts())
    }

    constructor (size: HeapSize)
      requires size >= HEADER && size % 8 == 0
      ensures Valid() && blocks == [Block(0, size - HEADER, true)] && totalAllocated == 0 && totalFreed == 0 && slack == 0
      ensures fresh(heap) && n == size
    {
      n := size;
      var cells := new Cell[size](i => if i == 0 then Head(size - HEADER, true, NULL) else if i < HEADER then Tail else Byte(0));
      heap := cells;
      totalAllocated, totalFreed, blockCount, slack := 0, 0, 1, 0;
      blocks := [Block(0, size - HEADER, true)];
      LiveOne(Block(0, size - HEADER, true));
    }

    /** The header at the start of block `k` and of the block after it. */
    lemma ReadHeaders(k: nat)
      requires Shaped() && k < |blocks|
      ensures blocks[k].off < n && heap[blocks[k].off] == HeadOf(blocks[k], n)
      ensures End(blocks[k]) != n ==>
        k + 1 < |blocks| && End(blocks[k]) < n && heap[End(blocks[k])] == HeadOf(blocks[k + 1], n)
      ensures End(blocks[k]) == n ==> k == |blocks| - 1
    {
      assert blocks[k] in blocks && heap[..][blocks[k].off] == HeadOf(blocks[k], n);
      if End(blocks[k]) != n {
        NextBlock(blocks, n, k);
        assert blocks[k + 1] in blocks && heap[..][blocks[k + 1].off] == HeadOf(blocks[k + 1], n);
      } else {
        LastBlock(blocks, n, k);
      }
    }

    /** The block at `current` takes in the block after it. */
    method JoinNext(current: nat, ghost k: nat)
      requires Shaped() && k + 1 < |blocks| && current == blocks[k].off
      modifies this`blockCount, this`blocks, heap
      ensures Shaped() && blocks == Splice(old(blocks), k, 2, [Join(old(blocks)[k], old(blocks)[k + 1])])
      ensures forall p :: 0 <= p < n && p != current ==> heap[p] == old(heap[p])
    {
      ReadHeaders(k);
      NextBlockEnd(blocks, n, k);
      JoinHeaders(heap[..], blocks, n, k);
      JoinTiles(blocks, n, k);
      var next := heap[current].next;
      ghost var before := heap[..];
      heap[current] := Head(heap[current].size + HEADER + heap[next].size, heap[current].free, heap[next].next);
      assert heap[..] == before[current := HeadOf(Join(blocks[k], blocks[k + 1]), n)];
      blockCount := blockCount - 1;
      blocks := Splice(blocks, k, 2, [Join(blocks[k], blocks[k + 1])]);
    }

    /** The free block at `current` takes in the free block after it. */
    method MergeNext(current: nat, ghost k: nat)
      requires Linked() && k + 1 < |blocks| && current == blocks[k].off && blocks[k].free && blocks[k + 1].free
      modifies this`blockCount, this`blocks, heap
      ensures Linked() && blocks == Splice(old(blocks), k, 2, [Join(old(blocks)[k], old(blocks)[k + 1])])
      ensures Allocated(blocks) == old(Allocated(blocks))
      ensures PayloadsKept(old(heap[..]), heap[..], Allocated(blocks))
    {
      JoinAllocated(blocks, k);
      HeaderNotPayload(blocks, n, k);
      JoinNext(current, k);
    }

    method Coalesce()
      requires Linked()
      modifies this`blockCount, this`blocks, heap
      ensures Valid()
      ensures Allocated(blocks) == old(Allocated(blocks))
      ensures PayloadsKept(old(heap[..]), heap[..], Allocated(blocks))
    {
      ghost var live, cells := Allocated(blocks), heap[..];
      ghost var k := 0;
      var current := 0;
      ReadHeaders(0);
      while heap[current].next != NULL
        invariant Linked() && k < |blocks| && current == blocks[k].off < n
        invariant heap[current] == HeadOf(blocks[k], n)
        invariant Allocated(blocks) == live && PayloadsKept(cells, heap[..], live)
        invariant NoAdjacentUpTo(blocks, k)
        decreases |blocks| - k
      {
        ReadHeaders(k);
        var next := heap[current].next;
        if heap[current].free && heap[next].free {
          ghost var bs, c1 := blocks, heap[..];
          MergeNext(current, k);
          MergedPrefix(bs, k);
          KeptTrans(cells, c1, heap[..], live);
        } else {
          current := next;
          k := k + 1;
        }
        ReadHeaders(k);
      }
      ReadHeaders(k);
    }

    /** Searches the list for the best fit. */
    method FindBest(size: nat) returns (best: int, ghost k: nat)
      requires Shaped()
      ensures if best == NULL then NoFit(blocks, size) else BestFit(blocks, size, k) && best == blocks[k].off
    {
      best, k := NULL, 0;
      var current: int := 0;
      ghost var i := 0;
      while current != NULL
        invariant i <= |blocks| && current == if i == |blocks| then NULL else blocks[i].off
        invariant Found(blocks, size, best, k, i)
        decreases |blocks| - i
      {
        ReadHeaders(i);
        if best != NULL {
          ReadHeaders(k);
        }
        FoundStep(blocks, size, best, k, i);
        if heap[current].free && heap[current].size >= size && (best == NULL || heap[current].size < heap[best].size) {
          best, k := current, i;
          if heap[current].size == size {
            return;
          }
        }
        current := heap[current].next;
        i := i + 1;
      }
    }

    /** Writes the headers of the parts of block `b`. */
    method WriteParts(size: nat, ghost b: Block, o: nat)
      requires heap.Length == n && End(b) <= n && o == b.off && heap[o] == HeadOf(b, n)
      requires size <= b.size
      modifies this`blockCount, heap
      ensures forall c :: c in Parts(b, size) ==> c.off < n && heap[c.off] == HeadOf(c, n)
      ensures blockCount == old(blockCount) + |Parts(b, size)| - 1
      ensures forall p :: 0 <= p < n && !(b.off <= p < End(b)) ==> heap[p] == old(heap[p])
      ensures forall p :: o + HEADER <= p < o + HEADER + size && p < n ==> heap[p] == old(heap[p])
    {
      if heap[o].size >= size + HEADER + 8 {
        var rest := o + HEADER + size;
        heap[rest] := Head(heap[o].size - size - HEADER, true, heap[o].next);
        forall i | rest < i < rest + HEADER {
          heap[i] := Tail;
        }
        heap[o] := Head(size, heap[o].free, rest);
        blockCount := blockCount + 1;
      }
      heap[o] := heap[o].(free := false);
    }

    /** Cuts the block at `o` down to `size` if the rest can hold a block of its own, and marks it used. */
    method SplitOff(o: nat, size: nat, ghost k: nat)
      requires Shaped() && k < |blocks| && o == blocks[k].off && size <= blocks[k].size && size % 8 == 0
      modifies this`blocks, this`blockCount, heap
      ensures Shaped() && blocks == Splice(old(blocks), k, 1, Parts(old(blocks)[k], size))
      ensures forall p :: 0 <= p < n && !(old(blocks)[k].off <= p < End(old(blocks)[k])) ==> heap[p] == old(heap[p])
      ensures forall p :: o + HEADER <= p < o + HEADER + size && p < n ==> heap[p] == old(heap[p])
    {
      ghost var b, c0 := blocks[k], heap[..];
      ReadHeaders(k);
      TilesInside(blocks, n, k);
      PartsCover(b, size);
      ReplaceTiles(blocks, n, k, Parts(b, size));
      WriteParts(size, b, o);
      ReplaceHeaders(c0, heap[..], blocks, n, k, Parts(b, size));
      blocks := Splice(blocks, k, 1, Parts(b, size));
    }

    /** Takes `size` bytes out of the free block at `best`. */
    method Take(best: nat, size: nat, ghost k: nat)
      requires Valid() && k < |blocks| && best == blocks[k].off && blocks[k].free
      requires size <= blocks[k].size && size % 8 == 0
      modifies this`blocks, this`blockCount, this`totalAllocated, heap
      ensures Valid() && blocks == Splice(old(blocks), k, 1, Parts(old(blocks)[k], size))
      ensures totalAllocated == old(totalAllocated) + Live(Parts(old(blocks)[k], size))
      ensures PayloadsKept(old(heap[..]), heap[..], old(Allocated(blocks)))
    {
      ghost var c0, bs := heap[..], blocks;
      PartsNoAdjacent(blocks, k, size);
      SpliceAllocated(blocks, n, k, Parts(blocks[k], size));
      LiveParts(bs[k], size);
      SplitOff(best, size, k);
      OthersKept(c0, heap[..], bs, n, k);
      FirstPart(blocks, bs, k, size);
      ReadHeaders(k);
      totalAllocated := totalAllocated + heap[best].size;
    }

    /** A block for `size` bytes, chosen as the best fit, or NULL if no free block is large enough. */
    method Malloc(size: nat) returns (ptr: int, ghost k: nat)
      requires Valid() && size < WORD
      modifies this`blocks, this`blockCount, this`totalAllocated, heap
      ensures Valid()
      ensures ptr == NULL <==> size == 0 || NoFit(old(blocks), RoundUp(size))
      ensures ptr == NULL ==> blocks == old(blocks) && heap[..] == old(heap[..]) && totalAllocated == old(totalAllocated)
      ensures ptr != NULL ==>
        && BestFit(old(blocks), RoundUp(size), k) && ptr == old(blocks)[k].off + HEADER
        && blocks == Splice(old(blocks), k, 1, Parts(old(blocks)[k], RoundUp(size)))
        && totalAllocated == old(totalAllocated) + Live(Parts(old(blocks)[k], RoundUp(size)))
      ensures PayloadsKept(old(heap[..]), heap[..], old(Allocated(blocks)))
    {
      ptr, k := NULL, 0;
      if size == 0 {
        return;
      }
      var best;
      best, k := FindBest(RoundUp(size));
      if best != NULL {
        Take(best, RoundUp(size), k);
        ptr := best + HEADER;
      }
    }

    /** What marking a block free does to the set of allocated blocks and the bytes in use. */
    lemma FreedAccount(bs: seq<Block>, n: nat, k: nat, b: Block)
      requires Tiles(bs, n) && k < |bs| && !bs[k].free && b == Block(bs[k].off, bs[k].size, true) && Covers([b], bs[k])
      ensures Allocated(Splice(bs, k, 1, [b])) == Allocated(bs) - {bs[k]}
      ensures Live(Splice(bs, k, 1, [b])) + bs[k].size == Live(bs)
    {
      SpliceAllocated(bs, n, k, [b]);
      LiveOne(b);
    }

    /** Marks the block at `o` free. */
    method Release(o: nat, ghost k: nat)
      requires Linked() && k < |blocks| && !blocks[k].free && o == blocks[k].off
      modifies this`blocks, this`totalFreed, heap
      ensures Linked()
      ensures Allocated(blocks) == old(Allocated(blocks)) - {old(blocks)[k]}
      ensures totalFreed == old(totalFreed) + old(blocks)[k].size
      ensures PayloadsKept(old(heap[..]), heap[..], Allocated(blocks))
    {
      ghost var c0, bs := heap[..], blocks;
      ghost var mid := [Block(o, blocks[k].size, true)];
      ReadHeaders(k);
      ReplaceTiles(blocks, n, k, mid);
      FreedAccount(blocks, n, k, mid[0]);
      heap[o] := heap[o].(free := true);
      totalFreed := totalFreed + heap[o].size;
      ReplaceHeaders(c0, heap[..], bs, n, k, mid);
      OthersKept(c0, heap[..], bs, n, k);
      blocks := Splice(blocks, k, 1, mid);
    }

    /** Gives a block back. NULL is ignored. */
    method Free(ptr: int, ghost k: nat)
      requires Valid()
      requires ptr != NULL ==> k < |blocks| && !blocks[k].free && ptr == blocks[k].off + HEADER
      modifies this`blocks, this`blockCount, this`totalFreed, heap
      ensures Valid()
      ensures ptr == NULL ==> blocks == old(blocks) && heap[..] == old(heap[..]) && totalFreed == old(totalFreed)
      ensures ptr != NULL ==>
        && Allocated(blocks) == old(Allocated(blocks)) - {old(blocks)[k]}
        && totalFreed == old(totalFreed) + old(blocks)[k].size
      ensures PayloadsKept(old(heap[..]), heap[..], Allocated(blocks))
    {
      if ptr != NULL {
        Release(ptr - HEADER, k);
        Coalesce();
      }
    }

    /** One load and store of `k` cells. */
    method CopyCells(d: nat, s: nat, k: nat, ghost dst: nat, ghost src: nat, ghost done: nat, ghost c0: seq<Cell>)
      requires Copied(c0, heap[..], dst, src, done) && d == dst + done && s == src + done
      requires d + k <= heap.Length && s + k <= heap.Length && (d + k <= src || s + k <= dst)
      modifies heap
      ensures Copied(c0, heap[..], dst, src, done + k)
    {
      ghost var c1 := heap[..];
      forall i | d <= i < d + k {
        heap[i] := heap[i - d + s];
      }
      CopiedStep(c0, c1, heap[..], dst, src, done, k);
    }

    /** Copies between disjoint ranges: byte-wise to alignment, then by words, then the rest. */
    method MemCopy(dst: nat, src: nat, len: nat)
      requires dst + len <= heap.Length && src + len <= heap.Length
      requires dst + len <= src || src + len <= dst || dst == src
      modifies heap
      ensures Copied(old(heap[..]), heap[..], dst, src, len)
    {
      ghost var c0 := heap[..];
      if len == 0 || dst == src {
        return;
      }
      var d, s, m := dst, src, len;
      while m > 0 && d % 8 != 0
        invariant 0 <= m <= len && d == dst + (len - m) && s == src + (len - m)
        invariant Copied(c0, heap[..], dst, src, len - m)
      {
        CopyCells(d, s, 1, dst, src, len - m, c0);
        d, s, m := d + 1, s + 1, m - 1;
      }
      while m >= 8
        invariant 0 <= m <= len && d == dst + (len - m) && s == src + (len - m)
        invariant Copied(c0, heap[..], dst, src, len - m)
      {
        CopyCells(d, s, 8, dst, src, len - m, c0);
        d, s, m := d + 8, s + 8, m - 8;
      }
      while m > 0
        invariant 0 <= m <= len && d == dst + (len - m) && s == src + (len - m)
        invariant Copied(c0, heap[..], dst, src, len - m)
      {
        CopyCells(d, s, 1, dst, src, len - m, c0);
        d, s, m := d + 1, s + 1, m - 1;
      }
    }

    /** Copies between ranges that may overlap, choosing the direction that reads before it overwrites. */
    method MemMove(dst: nat, src: nat, len: nat)
      requires dst + len <= heap.Length && src + len <= heap.Length
      modifies heap
      ensures Copied(old(heap[..]), heap[..], dst, src, len)
    {
      if dst == src || len == 0 {
        return;
      }
      if dst < src {
        var i := 0;
        while i < len
          invariant 0 <= i <= len
          invariant forall p :: dst <= p < dst + i ==> heap[p] == old(heap[p - dst + src])
          invariant forall p :: 0 <= p < heap.Length && !(dst <= p < dst + i) ==> heap[p] == old(heap[p])
        {
          heap[dst + i] := heap[src + i];
          i := i + 1;
        }
      } else {
        var i := len;
        while i > 0
          invariant 0 <= i <= len
          invariant forall p :: dst + i <= p < dst + len ==> heap[p] == old(heap[p - dst + src])
          invariant forall p :: 0 <= p < heap.Length && !(dst + i <= p < dst + len) ==> heap[p] == old(heap[p])
        {
          i := i - 1;
          heap[dst + i] := heap[src + i];
        }
      }
    }

    /** Writing into the payload of a live block keeps the heap and the other payloads. */
    lemma PayloadWrite(c0: seq<Cell>, k: nat)
      requires heap.Length == n && Tiles(blocks, n) && Headers(c0, blocks, n) && k < |blocks|
      requires forall p :: 0 <= p < n && !InPayload(blocks[k], p) ==> heap[p] == c0[p]
      ensures Headers(heap[..], blocks, n)
      ensures PayloadsKept(c0, heap[..], Allocated(blocks) - {blocks[k]})
    {
      forall b | b in blocks ensures heap[..][b.off] == c0[b.off] {
        if b != blocks[k] {
          TilesDisjoint(blocks, n, b, blocks[k]);
        }
      }
      OthersKept(c0, heap[..], blocks, n, k);
    }

    /** A fresh block whose first `total` bytes are zero. */
    method ZeroedBlock(total: nat) returns (ptr: int, ghost nb: Block)
      requires Valid() && 0 < total <= WORD - 8
      modifies this`blocks, this`blockCount, this`totalAllocated, heap
      ensures Valid() && Got(old(Now()), Now(), total, ptr, nb)
      ensures ptr != NULL ==> ptr + total <= n && forall p :: ptr <= p < ptr + total ==> heap[p] == Byte(0)
    {
      ghost var c0, live := heap[..], Allocated(blocks);
      ptr, nb := Hand(total);
      if ptr != NULL {
        RoundUpCovers(total);
        ghost var k := BlockIndex(blocks, nb);
        TilesInside(blocks, n, k);
        ghost var c1 := heap[..];
        forall i | ptr <= i < ptr + total {
          heap[i] := Byte(0);
        }
        PayloadWrite(c1, k);
        assert live <= Allocated(blocks) - {nb};
      }
    }

    /** A user of block `k` writes one byte of its payload. */
    method StoreByte(p: nat, value: int, ghost k: nat)
      requires Valid() && k < |blocks| && !blocks[k].free && InPayload(blocks[k], p)
      modifies heap
      ensures Valid() && p < n && heap[..] == old(heap[..])[p := Byte(value)]
      ensures PayloadsKept(old(heap[..]), heap[..], Allocated(blocks) - {blocks[k]})
    {
      TilesInside(blocks, n, k);
      ghost var c0 := heap[..];
      heap[p] := Byte(value);
      PayloadWrite(c0, k);
    }

    /**
     * `calloc`: a block of `count * size` zero bytes, or NULL also when the product does not fit a word.
     * For a product in the last seven values `malloc` hands out a block of no size, and clearing the
     * whole product runs past the end of the heap: that is the fault.
     */
    method Calloc(count: nat, size: nat) returns (ptr: int, fault: bool, ghost nb: Block)
      requires Valid() && count < WORD && size < WORD
      modifies this`blocks, this`blockCount, this`totalAllocated, heap
      ensures Valid() && (fault <==> WORD - 8 < count * size < WORD && !NoFit(old(blocks), 0))
      ensures Got(old(Now()), Now(), Total(count, size), ptr, nb)
      ensures fault ==> count * size > n
      ensures ptr != NULL && !fault ==> Zeroed(heap[..], ptr, Total(count, size))
    {
      ptr, fault, nb := NULL, false, Block(0, 0, false);
      if count == 0 || size == 0 {
        return;
      }
      QuotientTest(count, size);
      if size > (WORD - 1) / count {
        return;
      }
      var total := count * size;
      RoundUpCovers(total);
      if total > WORD - 8 {
        ptr, nb := Hand(total);
        fault := ptr != NULL;
        return;
      }
      ptr, nb := ZeroedBlock(total);
    }

    /** The rest of a block that is larger than needed becomes a free block. */
    method CutOff(o: nat, size: nat, ghost k: nat)
      requires Linked() && k < |blocks| && o == blocks[k].off && !blocks[k].free
      requires size % 8 == 0 && Splittable(blocks[k], size)
      modifies this`blocks, this`blockCount, this`totalFreed, heap
      ensures Linked() && blocks == Splice(old(blocks), k, 1, Parts(old(blocks)[k], size))
      ensures Allocated(blocks) == old(Allocated(blocks)) - {old(blocks)[k]} + Allocated(Parts(old(blocks)[k], size))
      ensures totalFreed == old(totalFreed) + old(blocks)[k].size - size
      ensures PayloadsKept(old(heap[..]), heap[..], old(Allocated(blocks)) - {old(blocks)[k]})
      ensures forall p :: o + HEADER <= p < o + HEADER + size && p < n ==> heap[p] == old(heap[p])
    {
      ReadHeaders(k);
      ghost var c0, bs, b := heap[..], blocks, blocks[k];
      var oldSize := heap[o].size;
      LiveParts(b, size);
      SpliceAllocated(blocks, n, k, Parts(b, size));
      SplitOff(o, size, k);
      OthersKept(c0, heap[..], bs, n, k);
      totalFreed := totalFreed + (oldSize - size);
    }

    /** The part of `realloc` that leaves the block at its place with at least `size` bytes. */
    method Shrink(o: nat, size: nat, ghost k: nat)
      requires Valid() && k < |blocks| && o == blocks[k].off && !blocks[k].free
      requires size <= blocks[k].size && size % 8 == 0
      modifies this`blocks, this`blockCount, this`totalFreed, heap
      ensures Valid()
      ensures Allocated(blocks) == old(Allocated(blocks)) - {old(blocks)[k]} + Allocated(Parts(old(blocks)[k], size))
      ensures totalFreed == old(totalFreed) + old(blocks)[k].size - Live(Parts(old(blocks)[k], size))
      ensures PayloadsKept(old(heap[..]), heap[..], old(Allocated(blocks)) - {old(blocks)[k]})
      ensures forall p :: o + HEADER <= p < o + HEADER + size && p < n ==> heap[p] == old(heap[p])
    {
      ReadHeaders(k);
      ghost var c0, bs, b := heap[..], blocks, blocks[k];
      LiveParts(b, size);
      if heap[o].size >= size + HEADER + 8 {
        CutOff(o, size, k);
        ghost var c1 := heap[..];
        Coalesce();
        ShrinkKept(c0, c1, heap[..], bs, blocks, n, k, size);
      } else {
        UnsplitSame(blocks, k);
      }
    }

    /** The block takes in the free block after it and gives back what it does not need. */
    method Grow(o: nat, size: nat, ghost k: nat)
      requires Valid() && k + 1 < |blocks| && o == blocks[k].off && !blocks[k].free && blocks[k + 1].free
      requires blocks[k].size < size <= Join(blocks[k], blocks[k + 1]).size && size % 8 == 0
      modifies this`blocks, this`blockCount, this`totalAllocated, this`slack, heap
      ensures Valid()
      ensures var parts := Parts(Join(old(blocks)[k], old(blocks)[k + 1]), size);
              && Allocated(blocks) == old(Allocated(blocks)) - {old(blocks)[k]} + Allocated(parts)
              && slack == old(slack) + Live(parts) - size
      ensures totalAllocated == old(totalAllocated) + size - old(blocks)[k].size
      ensures PayloadsKept(old(heap[..]), heap[..], old(Allocated(blocks)) - {old(blocks)[k]})
      ensures forall p :: InPayload(old(blocks)[k], p) && 0 <= p < n ==> heap[p] == old(heap[p])
    {
      ReadHeaders(k);
      var oldSize := heap[o].size;
      ghost var parts := Parts(Join(blocks[k], blocks[k + 1]), size);
      GrowList(blocks, n, k, size);
      ExtendOver(o, size, k);
      totalAllocated := totalAllocated + (size - oldSize);
      slack := slack + Live(parts) - size;
    }

    /** Joins block `k` with the free block behind it and splits off what is left over. */
    method ExtendOver(o: nat, size: nat, ghost k: nat)
      requires Shaped() && k + 1 < |blocks| && o == blocks[k].off && blocks[k + 1].free
      requires blocks[k].size < size <= Join(blocks[k], blocks[k + 1]).size && size % 8 == 0
      modifies this`blocks, this`blockCount, heap
      ensures var joined := Join(old(blocks)[k], old(blocks)[k + 1]);
              var r1 := Splice(old(blocks), k, 2, [joined]);
              && Shaped() && blocks == Splice(r1, k, 1, Parts(joined, size))
      ensures PayloadsKept(old(heap[..]), heap[..], old(Allocated(blocks)) - {old(blocks)[k]})
      ensures forall p :: InPayload(old(blocks)[k], p) && 0 <= p < n ==> heap[p] == old(heap[p])
    {
      ghost var c0, bs := heap[..], blocks;
      NextBlockEnd(blocks, n, k);
      JoinNext(o, k);
      SplitOff(o, size, k);
      GrowKept(c0, heap[..], bs, n, k);
    }

    /** Copies the payload of block `k` into the larger block `k1`. */
    method CopyInto(dst: nat, src: nat, len: nat, ghost k: nat, ghost k1: nat)
      requires Valid() && k < |blocks| && k1 < |blocks| && k != k1
      requires src == blocks[k].off + HEADER && len == blocks[k].size
      requires dst == blocks[k1].off + HEADER && len <= blocks[k1].size
      modifies heap
      ensures Valid()
      ensures PayloadsKept(old(heap[..]), heap[..], Allocated(blocks) - {blocks[k1]})
      ensures Copied(old(heap[..]), heap[..], dst, src, len)
    {
      ghost var c0 := heap[..];
      TilesInside(blocks, n, k);
      TilesInside(blocks, n, k1);
      if k < k1 { TilesOrdered(blocks, n, k, k1); } else { TilesOrdered(blocks, n, k1, k); }
      MemCopy(dst, src, len);
      forall p | 0 <= p < n && !InPayload(blocks[k1], p) ensures heap[p] == c0[p] {
        assert heap[..][p] == c0[p];
      }
      PayloadWrite(c0, k1);
    }

    /** Copies block `k` into block `k1` and gives block `k` back. */
    method Transfer(dst: nat, src: nat, ghost k: nat, ghost k1: nat)
      requires Valid() && k < |blocks| && k1 < |blocks| && blocks[k] != blocks[k1] && !blocks[k].free && !blocks[k1].free
      requires src == blocks[k].off + HEADER && dst == blocks[k1].off + HEADER && blocks[k].size <= blocks[k1].size
      modifies this`blocks, this`blockCount, this`totalFreed, heap
      ensures Valid() && Allocated(blocks) == old(Allocated(blocks)) - {old(blocks)[k]}
      ensures Transferred(old(heap[..]), heap[..], old(Allocated(blocks)), old(blocks)[k], old(blocks)[k1])
      ensures totalFreed == old(totalFreed) + old(blocks)[k].size
    {
      ghost var c1, b, nb, live := heap[..], blocks[k], blocks[k1], Allocated(blocks);
      assert nb in live;
      var len := CopyBlock(dst, src, k, k1);
      ghost var c2 := heap[..];
      Free(src, k);
      TransferKept(c1, c2, heap[..], live, b, nb, dst, src, len);
    }

    method CopyBlock(dst: nat, src: nat, ghost k: nat, ghost k1: nat) returns (len: nat)
      requires Valid() && k < |blocks| && k1 < |blocks| && blocks[k] != blocks[k1]
      requires src == blocks[k].off + HEADER && dst == blocks[k1].off + HEADER && blocks[k].size <= blocks[k1].size
      modifies heap
      ensures Valid() && PayloadsKept(old(heap[..]), heap[..], Allocated(blocks) - {blocks[k1]})
      ensures len == blocks[k].size && Copied(old(heap[..]), heap[..], dst, src, len)
    {
      ReadHeaders(k);
      len := heap[src - HEADER].size;
      CopyInto(dst, src, len, k, k1);
    }

    /** The part of `realloc` that moves the bytes to a new block. */
    method Move(ptr: nat, size: nat, ghost k: nat) returns (r: int, ghost nb: Block)
      requires Valid() && k < |blocks| && !blocks[k].free && ptr == blocks[k].off + HEADER
      requires blocks[k].size < size < WORD && size % 8 == 0
      modifies this`blocks, this`blockCount, this`totalAllocated, this`totalFreed, heap
      ensures Valid()
      ensures r == NULL <==> NoFit(old(blocks), size)
      ensures r == NULL ==> blocks == old(blocks) && heap[..] == old(heap[..])
      ensures r != NULL ==>
        && r != ptr && r == nb.off + HEADER && nb.size >= size
        && Resized(old(heap[..]), old(blocks), heap[..], blocks, k, old(blocks)[k].size, nb)
      ensures if r == NULL then Counts() == old(Counts())
              else ResizeCounted(old(Counts()), Counts(), old(blocks)[k].size, size, nb.size, false)
    {
      ghost var c0, bs, b := heap[..], blocks, blocks[k];
      TilesInside(blocks, n, k);
      ghost var k1;
      r, nb, k1 := MallocRounded(size);
      if r != NULL {
        ghost var c1 := heap[..];
        ghost var k2 := IndexOf(blocks, bs, b);
        TilesDisjoint(blocks, n, b, nb);
        Transfer(r, ptr, k2, k1);
        MoveKept(c0, c1, heap[..], Allocated(bs), b, nb);
      }
    }

    /** `Malloc` of a rounded size, seen on the set of allocated blocks. */
    method MallocRounded(size: nat) returns (ptr: int, ghost nb: Block, ghost k: nat)
      requires Valid() && 0 < size < WORD && size % 8 == 0
      modifies this`blocks, this`blockCount, this`totalAllocated, heap
      ensures Valid()
      ensures ptr == NULL <==> NoFit(old(blocks), size)
      ensures ptr == NULL ==> blocks == old(blocks) && heap[..] == old(heap[..])
      ensures ptr != NULL ==>
        && k < |blocks| && blocks[k] == nb && !nb.free && ptr == nb.off + HEADER && nb.size >= size
        && nb !in old(Allocated(blocks)) && Allocated(blocks) == old(Allocated(blocks)) + {nb}
      ensures totalAllocated == old(totalAllocated) + if ptr == NULL then 0 else nb.size
      ensures PayloadsKept(old(heap[..]), heap[..], old(Allocated(blocks)))
    {
      ghost var bs := blocks;
      RoundUpExact(size);
      nb := Block(0, 0, false);
      ptr, k := Malloc(size);
      if ptr != NULL {
        nb := HandedOut(bs, n, k, size);
      }
    }

    method ShrinkTo(o: nat, size: nat, ghost k: nat) returns (ghost nb: Block)
      requires Valid() && k < |blocks| && o == blocks[k].off && !blocks[k].free
      requires size <= blocks[k].size && size % 8 == 0
      modifies this`blocks, this`blockCount, this`totalFreed, heap
      ensures Valid() && nb.off == o && nb.size >= size
      ensures Resized(old(heap[..]), old(blocks), heap[..], blocks, k, size, nb)
      ensures ResizeCounted(old(Counts()), Counts(), old(blocks)[k].size, size, nb.size, true)
    {
      ghost var c0, b := heap[..], blocks[k];
      TilesInside(blocks, n, k);
      LiveParts(b, size);
      nb := Parts(b, size)[0];
      Shrink(o, size, k);
      PrefixInPlace(c0, heap[..], o + HEADER, size);
    }

    method GrowTo(o: nat, size: nat, ghost k: nat) returns (ghost nb: Block)
      requires Valid() && k + 1 < |blocks| && o == blocks[k].off && !blocks[k].free && blocks[k + 1].free
      requires blocks[k].size < size <= Join(blocks[k], blocks[k + 1]).size && size % 8 == 0
      modifies this`blocks, this`blockCount, this`totalAllocated, this`slack, heap
      ensures Valid() && nb.off == o && nb.size >= size
      ensures Resized(old(heap[..]), old(blocks), heap[..], blocks, k, old(blocks)[k].size, nb)
      ensures ResizeCounted(old(Counts()), Counts(), old(blocks)[k].size, size, nb.size, true)
    {
      ghost var c0, bs := heap[..], blocks;
      nb := Parts(Join(blocks[k], blocks[k + 1]), size)[0];
      GrownPart(blocks, n, k, size);
      Grow(o, size, k);
      PrefixInPlace(c0, heap[..], o + HEADER, bs[k].size);
    }

    /** Resizes the block at `ptr`: in place if it is large enough or can grow into the free block behind
        it, otherwise by moving. Its first bytes survive, and no other payload changes. */
    method Resize(ptr: nat, size: nat, ghost k: nat) returns (r: int, ghost nb: Block)
      requires Valid() && size < WORD && size % 8 == 0
      requires k < |blocks| && !blocks[k].free && ptr == blocks[k].off + HEADER
      modifies this`blocks, this`blockCount, this`totalAllocated, this`totalFreed, this`slack, heap
      ensures Valid()
      ensures Readjusted(old(Now()), Now(), k, size, r, nb)
    {
      var o := ptr - HEADER;
      ReadHeaders(k);
      if heap[o].size >= size {
        nb := ShrinkTo(o, size, k);
        r := ptr;
        return;
      }
      var next := heap[o].next;
      if next != NULL && heap[next].free && heap[o].size + HEADER + heap[next].size >= size {
        nb := GrowTo(o, size, k);
        r := ptr;
        return;
      }
      r, nb := Move(ptr, size, k);
    }

    /** `malloc`, seen on the set of allocated blocks. */
    method Hand(size: nat) returns (r: int, ghost nb: Block)
      requires Valid() && size < WORD
      modifies this`blocks, this`blockCount, this`totalAllocated, heap
      ensures Valid() && Got(old(Now()), Now(), size, r, nb)
    {
      ghost var a, k := Now(), 0;
      nb := Block(0, 0, false);
      r, k := Malloc(size);
      if r != NULL {
        nb := GotNew(a, Now(), n, size, k);
      }
    }

    /** `realloc`. */
    method Realloc(ptr: int, size: nat, ghost k: nat) returns (r: int, ghost nb: Block)
      requires Valid() && size < WORD
      requires ptr != NULL ==> k < |blocks| && !blocks[k].free && ptr == blocks[k].off + HEADER
      modifies this`blocks, this`blockCount, this`totalAllocated, this`totalFreed, this`slack, heap
      ensures Valid()
      ensures ptr == NULL ==> Got(old(Now()), Now(), size, r, nb)
      ensures ptr != NULL && size == 0 ==> r == NULL && GaveBack(old(Now()), Now(), k)
      ensures ptr != NULL && size != 0 ==> Readjusted(old(Now()), Now(), k, RoundUp(size), r, nb)
      ensures ptr != NULL && size != 0 ==>
        (r == ptr <==>
          || RoundUp(size) <= old(blocks)[k].size
          || (k + 1 < |old(blocks)| && old(blocks)[k + 1].free
              && RoundUp(size) <= old(blocks)[k].size + HEADER + old(blocks)[k + 1].size))
    {
      nb := Block(0, 0, false);
      if ptr == NULL {
        r, nb := Hand(size);
      } else if size == 0 {
        Free(ptr, k);
        r := NULL;
      } else {
        r, nb := Resize(ptr, RoundUp(size), k);
      }
    }

    /** Taking a block and giving it back restores the list exactly. */
    method MallocThenFree(size: nat)
      requires Valid() && size < WORD
      modifies this`blocks, this`blockCount, this`totalAllocated, this`totalFreed, heap
      ensures Valid() && blocks == old(blocks)
    {
      ghost var bs := blocks;
      var ptr;
      ghost var k;
      ptr, k := Malloc(size);
      if ptr != NULL {
        FirstPart(blocks, bs, k, RoundUp(size));
        SpliceAllocated(bs, n, k, Parts(bs[k], RoundUp(size)));
        LiveParts(bs[k], RoundUp(size));
        StillAllocated(bs, n, k, RoundUp(size));
        Free(ptr, k);
        Canonical(blocks, bs, n);
      }
    }

    /** Whether `ptr` is the start of an allocated block. */
    method FindLive(ptr: int) returns (live: bool, ghost k: nat)
      requires Shaped()
      ensures live ==> k < |blocks| && !blocks[k].free && ptr == blocks[k].off + HEADER
      ensures !live ==> forall j :: 0 <= j < |blocks| && !blocks[j].free ==> ptr != blocks[j].off + HEADER
    {
      k := 0;
      var current: int := 0;
      while current != NULL
        invariant k <= |blocks| && current == if k == |blocks| then NULL else blocks[k].off
        invariant forall j :: 0 <= j < k && !blocks[j].free ==> ptr != blocks[j].off + HEADER
        decreases |blocks| - k
      {
        ReadHeaders(k);
        if !heap[current].free && ptr == current + HEADER {
          return true, k;
        }
        current := heap[current].next;
        k := k + 1;
      }
      return false, k;
    }

    /** One call of a program that resizes and gives back only what it holds. */
    method Serve(call: Call) returns (r: int, fault: bool)
      requires Valid() && Sane(call)
      modifies this`blocks, this`blockCount, this`totalAllocated, this`totalFreed, this`slack, heap
      ensures Valid() && (fault ==> Faults(old(blocks), call)) && (!fault ==> Answered(old(Now()), Now(), call, r))
    {
      r, fault := NULL, false;
      match call
      case Ask(size) =>
        ghost var nb;
        r, nb := Hand(size);
      case AskZeroed(count, size) => r, fault := ServeZeroed(count, size);
      case Adjust(ptr, size) => r := ServeAdjust(ptr, size);
      case GiveBack(ptr) => ServeGiveBack(ptr);
      case Put(ptr, o, value) => ServePut(ptr, o, value);
    }

    method ServeZeroed(count: nat, size: nat) returns (r: int, fault: bool)
      requires Valid() && Sane(AskZeroed(count, size))
      modifies this`blocks, this`blockCount, this`totalAllocated, heap
      ensures Valid() && (fault ==> Faults(old(blocks), AskZeroed(count, size)))
      ensures !fault ==> Answered(old(Now()), Now(), AskZeroed(count, size), r)
    {
      ghost var a, nb := Now(), Block(0, 0, false);
      r, fault, nb := Calloc(count, size);
      if !fault {
        assert Got(a, Now(), Total(count, size), r, nb);
        assert r != NULL ==> Zeroed(Now().cells, r, Total(count, size));
      }
    }

    method ServeAdjust(ptr: int, size: nat) returns (r: int)
      requires Valid() && Sane(Adjust(ptr, size))
      modifies this`blocks, this`blockCount, this`totalAllocated, this`totalFreed, this`slack, heap
      ensures Valid() && Answered(old(Now()), Now(), Adjust(ptr, size), r)
    {
      ghost var a, k, nb := Now(), 0, Block(0, 0, false);
      r := NULL;
      var live;
      live, k := FindLive(ptr);
      if ptr == NULL {
        r, nb := Realloc(ptr, size, k);
      } else if live {
        assert HeldAt(a.blocks, ptr, k);
        r, nb := Realloc(ptr, size, k);
        if size == 0 {
          assert GaveBack(a, Now(), k);
        } else {
          assert Readjusted(a, Now(), k, RoundUp(size), r, nb);
        }
      } else {
        assert !Holds(a.blocks, ptr);
      }
    }

    method ServeGiveBack(ptr: int)
      requires Valid()
      modifies this`blocks, this`blockCount, this`totalFreed, heap
      ensures Valid() && Answered(old(Now()), Now(), GiveBack(ptr), NULL)
    {
      ghost var a, k := Now(), 0;
      var live;
      live, k := FindLive(ptr);
      if live {
        assert HeldAt(a.blocks, ptr, k);
        Free(ptr, k);
        assert GaveBack(a, Now(), k);
      } else {
        assert !Holds(a.blocks, ptr);
      }
    }

    method ServePut(ptr: int, o: nat, value: int)
      requires Valid()
      modifies heap
      ensures Valid() && Answered(old(Now()), Now(), Put(ptr, o, value), NULL)
    {
      ghost var a, k := Now(), 0;
      var live;
      live, k := FindLive(ptr);
      if live {
        ReadHeaders(k);
        if o < heap[ptr - HEADER].size {
          assert HeldAt(a.blocks, ptr, k);
          StoreByte(ptr + o, value, k);
          assert Stored(a, Now(), ptr + o, Byte(value));
        } else {
          NotThatLong(a.blocks, n, ptr, o, k);
        }
      } else {
        assert !HoldsByte(a.blocks, ptr, o);
      }
    }

    /**
     * Any run of the four operations and of stores, up to a fault of `calloc`: `snaps` are the states it goes through,
     * in each of which the blocks tile the heap with no two free ones adjacent. When nothing is held any
     * more the list is the one block it started as.
     */
    method Run(calls: seq<Call>) returns (results: seq<int>, faulted: bool, ghost snaps: seq<Snap>)
      requires Valid() && forall i :: 0 <= i < |calls| ==> Sane(calls[i])
      modifies this`blocks, this`blockCount, this`totalAllocated, this`totalFreed, this`slack, heap
      ensures Traced(snaps, calls, results, n) && snaps[0] == old(Now())
      ensures !faulted ==> Valid() && |results| == |calls| && snaps[|results|] == Now()
      ensures faulted ==> |results| < |calls| && Faults(snaps[|results|].blocks, calls[|results|])
      ensures !faulted ==> slack <= old(slack) + HEADER * Growths(snaps, calls, |results|)
      ensures !faulted && Allocated(blocks) == {} ==>
                blocks == [Block(0, n - HEADER, true)] && totalFreed == totalAllocated + slack
    {
      results, faulted, snaps := [], false, [Now()];
      for i := 0 to |calls|
        invariant Valid() && |results| == i && Traced(snaps, calls, results, n)
        invariant snaps[0] == old(Now()) && snaps[i] == Now()
      {
        var r;
        r, faulted := Serve(calls[i]);
        if faulted {
          return;
        }
        TracedMore(snaps, calls, results, n, Now(), r);
        results, snaps := results + [r], snaps + [Now()];
      }
      SlackOverRun(snaps, calls, results, n);
      if Allocated(blocks) == {} {
        EverythingFreed();
      }
    }

    /** After every block has been freed the heap is the initial block again; the counters differ by the slack. */
    lemma EverythingFreed()
      requires Valid() && Allocated(blocks) == {}
      ensures blocks == [Block(0, n - HEADER, true)] && blockCount == 1
      ensures totalFreed == totalAllocated + slack
    {
      AllFree(blocks, n);
      LiveOne(blocks[0]);
    }
  }

  /** Whether block `k` can be resized without moving it. */
  predicate StaysInPlace(bs: seq<Block>, k: nat, size: nat)
    requires k < |bs|
  {
    || bs[k].size >= size
    || (k + 1 < |bs| && bs[k + 1].free && bs[k].size + HEADER + bs[k + 1].size >= size)
  }

  /** Growing in place keeps at most a header's worth of bytes that were not asked for. */
  lemma SlackBound(bs: seq<Block>, n: nat, k: nat, size: nat)
    requires Tiles(bs, n) && k + 1 < |bs| && size % 8 == 0 && size <= Join(bs[k], bs[k + 1]).size
    ensures size <= Parts(Join(bs[k], bs[k + 1]), size)[0].size <= size + HEADER
  {
    JoinAligned(bs[k], bs[k + 1]);
  }

  /** What block `k` becomes when it grows over the free block behind it. */
  lemma GrownPart(bs: seq<Block>, n: nat, k: nat, size: nat)
    requires Tiles(bs, n) && k + 1 < |bs| && size % 8 == 0 && size <= Join(bs[k], bs[k + 1]).size
    ensures var parts := Parts(Join(bs[k], bs[k + 1]), size);
            && Allocated(parts) == {parts[0]} && Live(parts) == parts[0].size && parts[0].off == bs[k].off
            && size <= parts[0].size <= size + HEADER
    ensures bs[k].off + HEADER + bs[k].size <= n
  {
    TilesInside(bs, n, k);
    LiveParts(Join(bs[k], bs[k + 1]), size);
    SlackBound(bs, n, k, size);
  }

  lemma PrefixInPlace(c0: seq<Cell>, c1: seq<Cell>, p: nat, len: nat)
    requires |c0| == |c1| && p + len <= |c0|
    requires forall i :: p <= i < p + len ==> c1[i] == c0[i]
    ensures SamePrefix(c0, p, c1, p, len)
  {
  }

  lemma IndexOf(bs: seq<Block>, prev: seq<Block>, b: Block) returns (k: nat)
    requires Allocated(prev) <= Allocated(bs) && b in prev && !b.free
    ensures k < |bs| && bs[k] == b
  {
    assert b in Allocated(prev);
    k :| 0 <= k < |bs| && bs[k] == b;
  }

  /** The first `len` cells at `q` afterwards are those at `p` before. */
  ghost predicate SamePrefix(c0: seq<Cell>, p: nat, c1: seq<Cell>, q: nat, len: nat)
  {
    && p + len <= |c0| && q + len <= |c1|
    && forall i {:trigger c1[i]} :: q <= i < q + len ==> c1[i] == c0[i - q + p]
  }

  /** Block `b` was copied into `nb`; all payloads but these two are untouched. */
  ghost predicate Transferred(c1: seq<Cell>, c3: seq<Cell>, live: set<Block>, b: Block, nb: Block)
  {
    && PayloadsKept(c1, c3, live - {b} - {nb})
    && SamePrefix(c1, b.off + HEADER, c3, nb.off + HEADER, b.size)
  }

  /** What taking `size` bytes out of the free block `k` hands out. */
  lemma GotNew(a: Snap, b: Snap, n: nat, size: nat, k: nat) returns (nb: Block)
    requires Tiles(a.blocks, n) && 0 < size < WORD && BestFit(a.blocks, RoundUp(size), k)
    requires b.blocks == Splice(a.blocks, k, 1, Parts(a.blocks[k], RoundUp(size)))
    requires b.counts == a.counts.(taken := a.counts.taken + Live(Parts(a.blocks[k], RoundUp(size))))
    requires PayloadsKept(a.cells, b.cells, Allocated(a.blocks)) && !NoFit(a.blocks, RoundUp(size))
    ensures Got(a, b, size, a.blocks[k].off + HEADER, nb)
  {
    nb := HandedOut(a.blocks, n, k, RoundUp(size));
  }

  lemma HandedOut(bs: seq<Block>, n: nat, k: nat, size: nat) returns (nb: Block)
    requires Tiles(bs, n) && k < |bs| && bs[k].free && size <= bs[k].size
    ensures var r := Splice(bs, k, 1, Parts(bs[k], size));
            Allocated(r) == Allocated(bs) + {nb} && nb !in Allocated(bs) && k < |r| && r[k] == nb && !nb.free
    ensures nb.off == bs[k].off && nb.size >= size && Live(Parts(bs[k], size)) == nb.size
  {
    nb := Parts(bs[k], size)[0];
    SpliceAllocated(bs, n, k, Parts(bs[k], size));
    LiveParts(bs[k], size);
    StillAllocated(bs, n, k, size);
    FirstPart(Splice(bs, k, 1, Parts(bs[k], size)), bs, k, size);
  }

  lemma BlockIndex(bs: seq<Block>, b: Block) returns (k: nat)
    requires b in Allocated(bs)
    ensures k < |bs| && bs[k] == b && !b.free
  {
    k :| k < |bs| && bs[k] == b;
  }

  lemma TransferKept(c1: seq<Cell>, c2: seq<Cell>, c3: seq<Cell>, live: set<Block>, b: Block, nb: Block, dst: nat, src: nat, len: nat)
    requires nb in live && b != nb && b.size <= nb.size
    requires PayloadsKept(c1, c2, live - {nb})
    requires dst == nb.off + HEADER && src == b.off + HEADER && len == b.size && Copied(c1, c2, dst, src, len)
    requires PayloadsKept(c2, c3, live - {b})
    ensures Transferred(c1, c3, live, b, nb)
  {
    var p, q := b.off + HEADER, nb.off + HEADER;
    forall i | q <= i < q + b.size ensures c3[i] == c1[i - q + p] {
      assert InPayload(nb, i) && c3[i] == c2[i];
    }
  }

  /** What allocating, copying and freeing left alone. */
  lemma MoveKept(c0: seq<Cell>, c1: seq<Cell>, c3: seq<Cell>, live: set<Block>, b: Block, nb: Block)
    requires b in live && nb !in live && End(b) <= |c0|
    requires PayloadsKept(c0, c1, live)
    requires Transferred(c1, c3, live + {nb}, b, nb)
    ensures PayloadsKept(c0, c3, live - {b})
    ensures SamePrefix(c0, b.off + HEADER, c3, nb.off + HEADER, b.size)
  {
    var p, q := b.off + HEADER, nb.off + HEADER;
    forall i | q <= i < q + b.size ensures c3[i] == c0[i - q + p] {
      assert InPayload(b, i - q + p);
    }
    forall c, i | c in live - {b} && InPayload(c, i) && 0 <= i < |c0| ensures c3[i] == c0[i] {
      assert c in live + {nb} - {b} - {nb};
    }
  }

  lemma RoundUpExact(size: nat)
    requires size < WORD && size % 8 == 0
    ensures RoundUp(size) == size
  {
  }

  /** The list after a block has grown into the free block behind it. */
  lemma GrowList(bs: seq<Block>, n: nat, k: nat, size: nat)
    requires Tiles(bs, n) && NoAdjacentFree(bs) && k + 1 < |bs| && !bs[k].free && bs[k + 1].free
    requires bs[k].size < size <= Join(bs[k], bs[k + 1]).size && size % 8 == 0
    ensures var joined := Join(bs[k], bs[k + 1]);
            var r1 := Splice(bs, k, 2, [joined]);
            && k < |r1| && r1[k] == joined
            && (var parts := Parts(joined, size);
                var r := Splice(r1, k, 1, parts);
                && NoAdjacentFree(r)
                && Allocated(r) == Allocated(bs) - {bs[k]} + Allocated(parts)
                && Live(r) == Live(bs) - bs[k].size + Live(parts)
                && size <= Live(parts))
  {
    var joined := Join(bs[k], bs[k + 1]);
    var r1 := Splice(bs, k, 2, [joined]);
    JoinTiles(bs, n, k);
    JoinUsed(bs, n, k);
    SpliceAllocated(r1, n, k, Parts(joined, size));
    LiveParts(joined, size);
    PartsNoAdjacent(r1, k, size);
  }

  lemma JoinUsed(bs: seq<Block>, n: nat, k: nat)
    requires Tiles(bs, n) && NoAdjacentFree(bs) && k + 1 < |bs| && !bs[k].free && bs[k + 1].free
    ensures var joined := Join(bs[k], bs[k + 1]);
            var r1 := Splice(bs, k, 2, [joined]);
            && NoAdjacentFree(r1) && (k + 1 < |r1| ==> !r1[k + 1].free)
            && Allocated(r1) - {joined} == Allocated(bs) - {bs[k]}
            && Live(r1) == Live(bs) - bs[k].size + joined.size
  {
    var joined := Join(bs[k], bs[k + 1]);
    JoinUsedApart(bs, k);
    JoinUsedAllocated(bs, n, k);
    LiveSplice(bs, k, 2, [joined]);
    LiveOne(joined);
    assert bs[k..k + 2] == [bs[k]] + [bs[k + 1]];
    LiveConcat([bs[k]], [bs[k + 1]]);
    LiveOne(bs[k]);
    LiveOne(bs[k + 1]);
  }

  lemma JoinUsedApart(bs: seq<Block>, k: nat)
    requires NoAdjacentFree(bs) && k + 1 < |bs| && !bs[k].free && bs[k + 1].free
    ensures var r1 := Splice(bs, k, 2, [Join(bs[k], bs[k + 1])]);
            NoAdjacentFree(r1) && (k + 1 < |r1| ==> !r1[k + 1].free)
  {
    var r1 := Splice(bs, k, 2, [Join(bs[k], bs[k + 1])]);
    assert forall i :: 0 <= i < k ==> r1[i] == bs[i];
    assert forall i :: k < i < |r1| ==> r1[i] == bs[i + 1];
    if k + 1 < |r1| {
      assert !(bs[k + 1].free && bs[k + 1 + 1].free);
    }
    forall i | 0 <= i < |r1| - 1 ensures !(r1[i].free && r1[i + 1].free) {
      if i + 1 < k {
        assert !(bs[i].free && bs[i + 1].free);
      } else if i > k {
        assert !(bs[i + 1].free && bs[i + 1 + 1].free);
      }
    }
  }

  lemma JoinUsedAllocated(bs: seq<Block>, n: nat, k: nat)
    requires Tiles(bs, n) && k + 1 < |bs| && !bs[k].free && bs[k + 1].free
    ensures var joined := Join(bs[k], bs[k + 1]);
            Allocated(Splice(bs, k, 2, [joined])) - {joined} == Allocated(bs) - {bs[k]}
  {
    var joined := Join(bs[k], bs[k + 1]);
    var r1 := Splice(bs, k, 2, [joined]);
    forall b | b in Allocated(r1) - {joined} ensures b in Allocated(bs) - {bs[k]} {
      JoinMembers(bs, k, b);
      var i :| 0 <= i < |bs| && i != k && i != k + 1 && bs[i] == b;
      if i < k { TilesOrdered(bs, n, i, k); } else { TilesOrdered(bs, n, k, i); }
    }
    forall b | b in Allocated(bs) - {bs[k]} ensures b in Allocated(r1) - {joined} {
      var i :| 0 <= i < |bs| && bs[i] == b;
      if i < k {
        assert r1[i] == b;
        TilesOrdered(bs, n, i, k);
      } else {
        assert r1[i - 1] == b;
        TilesOrdered(bs, n, k, i);
      }
    }
  }

  /** Nothing outside the two joined blocks changed, so the other payloads are kept. */
  lemma GrowKept(c0: seq<Cell>, c1: seq<Cell>, bs: seq<Block>, n: nat, k: nat)
    requires Tiles(bs, n) && k + 1 < |bs| && bs[k + 1].free && |c0| == |c1| == n
    requires forall p :: 0 <= p < n && !(bs[k].off <= p < End(bs[k + 1])) ==> c1[p] == c0[p]
    ensures PayloadsKept(c0, c1, Allocated(bs) - {bs[k]})
  {
    forall b, p | b in Allocated(bs) - {bs[k]} && InPayload(b, p) && 0 <= p < n ensures c1[p] == c0[p] {
      TilesDisjoint(bs, n, b, bs[k]);
      TilesDisjoint(bs, n, b, bs[k + 1]);
      assert bs[k + 1].off == End(bs[k]);
    }
  }

  lemma UnsplitSame(bs: seq<Block>, k: nat)
    requires k < |bs| && !bs[k].free
    ensures Allocated(bs) == Allocated(bs) - {bs[k]} + {Block(bs[k].off, bs[k].size, false)}
  {
  }

  /** What splitting and then merging left alone. */
  lemma ShrinkKept(c0: seq<Cell>, c1: seq<Cell>, c2: seq<Cell>, bs: seq<Block>, r: seq<Block>, n: nat, k: nat, size: nat)
    requires k < |bs| && |c0| == |c1| == |c2| == n
    requires PayloadsKept(c0, c1, Allocated(bs) - {bs[k]})
    requires PayloadsKept(c1, c2, Allocated(r))
    requires Splittable(bs[k], size) && !bs[k].free
    requires Allocated(r) == Allocated(bs) - {bs[k]} + Allocated(Parts(bs[k], size))
    requires forall p :: bs[k].off + HEADER <= p < bs[k].off + HEADER + size && p < n ==> c1[p] == c0[p]
    ensures PayloadsKept(c0, c2, Allocated(bs) - {bs[k]})
    ensures forall p :: bs[k].off + HEADER <= p < bs[k].off + HEADER + size && p < n ==> c2[p] == c0[p]
  {
    var nb := Parts(bs[k], size)[0];
    assert nb in Allocated(Parts(bs[k], size));
    forall p | bs[k].off + HEADER <= p < bs[k].off + HEADER + size && p < n ensures c2[p] == c0[p] {
      assert InPayload(nb, p);
    }
  }

  /** The first `done` cells of the copy have arrived, the others are untouched. */
  ghost predicate Copied(c0: seq<Cell>, c1: seq<Cell>, dst: nat, src: nat, done: nat)
  {
    && |c0| == |c1| && dst + done <= |c0| && src + done <= |c0|
    && forall p {:trigger c1[p]} :: 0 <= p < |c1| ==> c1[p] == if dst <= p < dst + done then c0[p - dst + src] else c0[p]
  }

  lemma CopiedStep(c0: seq<Cell>, c1: seq<Cell>, c2: seq<Cell>, dst: nat, src: nat, done: nat, len: nat)
    requires Copied(c0, c1, dst, src, done) && |c2| == |c1|
    requires dst + done + len <= |c0| && src + done + len <= |c0|
    requires dst + done + len <= src || src + done + len <= dst
    requires forall p {:trigger c2[p]} :: 0 <= p < |c2| ==>
      c2[p] == if dst + done <= p < dst + done + len then c1[p - dst + src] else c1[p]
    ensures Copied(c0, c2, dst, src, done + len)
  {
    forall p | 0 <= p < |c2| ensures c2[p] == if dst <= p < dst + done + len then c0[p - dst + src] else c0[p] {
      if dst + done <= p < dst + done + len {
        var q := p - dst + src;
        assert c1[q] == c0[q];
      }
    }
  }

  lemma QuotientTest(count: nat, size: nat)
    requires count > 0
    ensures size > (WORD - 1) / count <==> count * size >= WORD
    ensures size > 0 ==> count * size > 0
  {
    var q := (WORD - 1) / count;
    var r := (WORD - 1) % count;
    assert WORD - 1 == q * count + r;
    if size > q {
      assert size * count >= (q + 1) * count;
    } else {
      assert size * count <= q * count;
    }
  }

  /** Using up a free block leaves every allocated block in place and apart from the new one. */
  lemma StillAllocated(bs: seq<Block>, n: nat, k: nat, size: nat)
    requires Tiles(bs, n) && k < |bs| && bs[k].free
    ensures var r := Splice(bs, k, 1, Parts(bs[k], size));
            Allocated(bs) <= Allocated(r) - {Parts(bs[k], size)[0]}
  {
    SpliceAllocated(bs, n, k, Parts(bs[k], size));
    forall b | b in Allocated(bs) ensures b != Parts(bs[k], size)[0] {
      TilesDisjoint(bs, n, b, bs[k]);
    }
  }

  lemma FirstPart(r: seq<Block>, bs: seq<Block>, k: nat, size: nat)
    requires k < |bs| && r == Splice(bs, k, 1, Parts(bs[k], size))
    ensures k < |r| && r[k] == Parts(bs[k], size)[0]
  {
  }

  ghost predicate NoAdjacentUpTo(bs: seq<Block>, k: nat)
  {
    k < |bs| && forall i :: 0 <= i < k ==> !(bs[i].free && bs[i + 1].free)
  }

  lemma MergedPrefix(bs: seq<Block>, k: nat)
    requires NoAdjacentUpTo(bs, k) && k + 1 < |bs|
    ensures NoAdjacentUpTo(Splice(bs, k, 2, [Join(bs[k], bs[k + 1])]), k)
  {
    var r := Splice(bs, k, 2, [Join(bs[k], bs[k + 1])]);
    forall i | 0 <= i < k ensures !(r[i].free && r[i + 1].free) {
      assert !(bs[i].free && bs[i + 1].free);
    }
  }

  lemma KeptTrans(c0: seq<Cell>, c1: seq<Cell>, c2: seq<Cell>, live: set<Block>)
    requires PayloadsKept(c0, c1, live) && PayloadsKept(c1, c2, live)
    ensures PayloadsKept(c0, c2, live)
  {
  }

  lemma NextBlockEnd(bs: seq<Block>, n: nat, k: nat)
    requires Tiles(bs, n) && k + 1 < |bs|
    ensures End(bs[k]) == bs[k + 1].off < n
  {
    TilesInside(bs, n, k + 1);
  }

  /** No payload covers the header of a block. */
  lemma HeaderNotPayload(bs: seq<Block>, n: nat, k: nat)
    requires Tiles(bs, n) && k < |bs|
    ensures forall b :: b in bs ==> !InPayload(b, bs[k].off)
  {
    forall b | b in bs ensures !InPayload(b, bs[k].off) {
      if b != bs[k] {
        TilesDisjoint(bs, n, b, bs[k]);
      }
    }
  }

  lemma NextBlock(bs: seq<Block>, n: nat, k: nat)
    requires Tiles(bs, n) && k < |bs| && End(bs[k]) != n
    ensures k + 1 < |bs| && bs[k + 1].off == End(bs[k])
    ensures bs[k + 1].off < n
  {
    if k + 1 < |bs| {
      TilesInside(bs, n, k + 1);
    }
  }

  lemma LastBlock(bs: seq<Block>, n: nat, k: nat)
    requires Tiles(bs, n) && k < |bs| && End(bs[k]) == n
    ensures k == |bs| - 1
  {
    if k < |bs| - 1 {
      TilesOrdered(bs, n, k, |bs| - 1);
    }
  }

  /** A request for all of memory but one byte is rounded to nothing, and a block is handed out for it. */
  method WrappedRequest() returns (h: Heap, ptr: int, ghost nb: Block)
    ensures fresh(h) && h.Valid() && ptr != NULL && ptr == nb.off + HEADER && nb in h.blocks && nb.size < WORD - 1
  {
    h := new Heap(64);
    RoundUpCovers(WORD - 1);
    assert Usable(h.blocks[0], 0);
    ptr, nb := h.Hand(WORD - 1);
    ghost var k := BlockIndex(h.blocks, nb);
    TilesInside(h.blocks, h.n, k);
  }
}
