/** The installer's undo log over its one-block write-back cache.

    Every write saves the bytes it overwrites. If the installation fails, the log is
    reversed and written back, after the cached block was dropped unflushed. The device
    must then hold its original bytes again. */
module UndoLog {
  import opened Basics
  import opened Arith

  /** The bytes that a write at `loc` replaced. */
  datatype Saved = Saved(loc: nat, data: seq<Byte>)

  const LOG_MAX := 256

  /** `d` with `data` written at `loc`. */
  function Patch(d: seq<Byte>, loc: nat, data: seq<Byte>): (r: seq<Byte>)
    requires loc + |data| <= |d|
    ensures |r| == |d|
    ensures forall p {:trigger r[p]} :: 0 <= p < |d| ==> r[p] == if loc <= p < loc + |data| then data[p - loc] else d[p]
  {
    seq(|d|, i requires 0 <= i < |d| => if loc <= i < loc + |data| then data[i - loc] else d[i])
  }

  lemma PatchSame(d: seq<Byte>, loc: nat, n: nat)
    requires loc + n <= |d|
    ensures Patch(d, loc, d[loc..loc + n]) == d
  {
  }

  lemma PatchSlice(d: seq<Byte>, start: nat, block: seq<Byte>, o: nat, n: nat)
    requires start + |block| <= |d| && o + n <= |block|
    ensures Patch(d, start, block)[start + o..start + o + n] == block[o..o + n]
  {
  }

  /** Writing inside a block is writing inside the whole. */
  lemma PatchInside(d: seq<Byte>, start: nat, block: seq<Byte>, o: nat, piece: seq<Byte>)
    requires start + |block| <= |d| && o + |piece| <= |block|
    ensures Patch(d, start, Patch(block, o, piece)) == Patch(Patch(d, start, block), start + o, piece)
  {
  }

  /** An empty piece fits anywhere. */
  predicate FitsOne(s: Saved, n: nat) { s.data == [] || s.loc + |s.data| <= n }

  predicate Fits(log: seq<Saved>, n: nat)
  {
    forall i :: 0 <= i < |log| ==> FitsOne(log[i], n)
  }

  function PutBack(d: seq<Byte>, s: Saved): (r: seq<Byte>)
    requires FitsOne(s, |d|)
    ensures |r| == |d|
    ensures forall p {:trigger r[p]} :: 0 <= p < |d| ==> r[p] == if Covers(s, p) then s.data[p - s.loc] else d[p]
  {
    if s.data == [] then d else Patch(d, s.loc, s.data)
  }

  /** The saved pieces written back in the given order. */
  function WriteBack(d: seq<Byte>, log: seq<Saved>): (r: seq<Byte>)
    requires Fits(log, |d|)
    ensures |r| == |d|
    decreases |log|
  {
    if log == [] then d
    else
      assert forall i :: 0 <= i < |log[1..]| ==> log[1..][i] == log[i + 1];
      WriteBack(PutBack(d, log[0]), log[1..])
  }

  function Reversed(log: seq<Saved>): (r: seq<Saved>)
    ensures |r| == |log|
    ensures forall i :: 0 <= i < |log| ==> r[i] == log[|log| - 1 - i]
  {
    if log == [] then [] else Reversed(log[1..]) + [log[0]]
  }

  predicate Covers(s: Saved, p: nat) { s.loc <= p < s.loc + |s.data| }

  /** The oldest saved value of byte `p`, if any write touched it. */
  function Oldest(log: seq<Saved>, p: nat): Option<Byte>
  {
    if log == [] then None
    else if Covers(log[0], p) then Some(log[0].data[p - log[0].loc])
    else Oldest(log[1..], p)
  }

  lemma {:induction false} WriteBackAppend(d: seq<Byte>, log: seq<Saved>, s: Saved)
    requires Fits(log + [s], |d|)
    ensures Fits(log, |d|) && FitsOne(s, |d|)
    ensures WriteBack(d, log + [s]) == PutBack(WriteBack(d, log), s)
    decreases |log|
  {
    var all := log + [s];
    assert all[|log|] == s;
    assert forall i :: 0 <= i < |log| ==> all[i] == log[i];
    if log == [] {
      assert all[1..] == [];
    } else {
      assert all[1..] == log[1..] + [s];
      assert forall i :: 0 <= i < |all[1..]| ==> all[1..][i] == all[i + 1];
      WriteBackAppend(PutBack(d, log[0]), log[1..], s);
    }
  }

  /** Written back in reverse, the oldest saved value of each byte wins. */
  lemma {:induction false} OldestWins(d: seq<Byte>, log: seq<Saved>, p: nat)
    requires Fits(log, |d|) && p < |d|
    ensures Fits(Reversed(log), |d|)
    ensures WriteBack(d, Reversed(log))[p] == if Oldest(log, p).Some? then Oldest(log, p).value else d[p]
    decreases |log|
  {
    if log == [] {
    } else {
      var rest := log[1..];
      assert forall i :: 0 <= i < |rest| ==> rest[i] == log[i + 1];
      OldestWins(d, rest, p);
      WriteBackAppend(d, Reversed(rest), log[0]);
    }
  }

  /** What the log promises about the original contents: each byte's oldest saved value is the original one. */
  ghost predicate Faithful(log: seq<Saved>, orig: seq<Byte>)
  {
    && Fits(log, |orig|)
    && forall p :: 0 <= p < |orig| && Oldest(log, p).Some? ==> Oldest(log, p).value == orig[p]
  }

  /** `d` may differ from the original only where the log has a saved byte. */
  ghost predicate DiffersOnlyWhereLogged(log: seq<Saved>, orig: seq<Byte>, d: seq<Byte>)
  {
    |d| == |orig| && forall p :: 0 <= p < |orig| && Oldest(log, p).None? ==> d[p] == orig[p]
  }

  /** Any device state that differs from the original only where bytes were saved is repaired by the log. */
  lemma RollbackRestores(log: seq<Saved>, orig: seq<Byte>, d: seq<Byte>)
    requires Faithful(log, orig) && DiffersOnlyWhereLogged(log, orig, d)
    ensures Fits(Reversed(log), |d|) && WriteBack(d, Reversed(log)) == orig
  {
    forall i | 0 <= i < |log| ensures FitsOne(Reversed(log)[i], |d|) {
      assert FitsOne(log[|log| - 1 - i], |d|);
    }
    forall p | 0 <= p < |orig| ensures WriteBack(d, Reversed(log))[p] == orig[p] {
      OldestWins(d, log, p);
    }
  }

  lemma {:induction false} OldestAppend(log: seq<Saved>, s: Saved, p: nat)
    ensures Oldest(log + [s], p) ==
      if Oldest(log, p).Some? then Oldest(log, p) else if Covers(s, p) then Some(s.data[p - s.loc]) else None
    decreases |log|
  {
    if log == [] {
      assert (log + [s])[1..] == [];
    } else {
      assert (log + [s])[1..] == log[1..] + [s];
      OldestAppend(log[1..], s, p);
    }
  }

  /** Saving the current bytes before overwriting them keeps both promises. */
  lemma SaveThenWrite(log: seq<Saved>, orig: seq<Byte>, before: seq<Byte>, s: Saved, data: seq<Byte>)
    requires Faithful(log, orig) && DiffersOnlyWhereLogged(log, orig, before)
    requires |data| == |s.data| && FitsOne(s, |orig|)
    requires s.data != [] ==> s.data == before[s.loc..s.loc + |s.data|]
    ensures Faithful(log + [s], orig)
    ensures DiffersOnlyWhereLogged(log + [s], orig, PutBack(before, Saved(s.loc, data)))
  {
    forall p: nat ensures Oldest(log + [s], p) ==
      if Oldest(log, p).Some? then Oldest(log, p) else if Covers(s, p) then Some(s.data[p - s.loc]) else None
    {
      OldestAppend(log, s, p);
    }
    forall i | 0 <= i < |log + [s]| ensures FitsOne((log + [s])[i], |orig|) {
      if i < |log| {
        assert FitsOne(log[i], |orig|);
      }
    }
  }

  /** Each byte of `d` outside [lo, hi) is the one on the device or the one in the logical contents before. */
  ghost predicate FromEither(d: seq<Byte>, disk: seq<Byte>, contents: seq<Byte>, lo: nat, hi: nat)
  {
    && |d| == |disk| == |contents|
    && forall p :: 0 <= p < |d| && !(lo <= p < hi) ==> d[p] == disk[p] || d[p] == contents[p]
  }

  lemma EitherStaysLogged(log: seq<Saved>, orig: seq<Byte>, disk: seq<Byte>, contents: seq<Byte>, d: seq<Byte>, s: Saved)
    requires DiffersOnlyWhereLogged(log, orig, disk) && DiffersOnlyWhereLogged(log, orig, contents)
    requires FromEither(d, disk, contents, s.loc, s.loc + |s.data|)
    ensures DiffersOnlyWhereLogged(log + [s], orig, d)
  {
    forall p: nat ensures Oldest(log + [s], p) ==
      if Oldest(log, p).Some? then Oldest(log, p) else if Covers(s, p) then Some(s.data[p - s.loc]) else None
    {
      OldestAppend(log, s, p);
    }
  }

  lemma EitherNothing(log: seq<Saved>, orig: seq<Byte>, disk: seq<Byte>, contents: seq<Byte>, d: seq<Byte>)
    requires DiffersOnlyWhereLogged(log, orig, disk) && DiffersOnlyWhereLogged(log, orig, contents)
    requires FromEither(d, disk, contents, 0, 0)
    ensures DiffersOnlyWhereLogged(log, orig, d)
  {
  }

  /** A logged write from contents `c` and device bytes `d`: the log grown by `s` is good for the
      device bytes `d2` it leads to and for the new contents. */
  lemma LoggedWrite(log: seq<Saved>, orig: seq<Byte>, d: seq<Byte>, c: seq<Byte>, d2: seq<Byte>,
                    s: Saved, data: seq<Byte>)
    requires Faithful(log, orig) && DiffersOnlyWhereLogged(log, orig, d) && DiffersOnlyWhereLogged(log, orig, c)
    requires |data| == |s.data| && FitsOne(s, |orig|) && (s.data != [] ==> s.data == c[s.loc..s.loc + |s.data|])
    requires FromEither(d2, d, c, s.loc, s.loc + |s.data|)
    ensures Faithful(log + [s], orig) && DiffersOnlyWhereLogged(log + [s], orig, d2)
    ensures DiffersOnlyWhereLogged(log + [s], orig, PutBack(c, Saved(s.loc, data)))
  {
    SaveThenWrite(log, orig, c, s, data);
    EitherStaysLogged(log, orig, d, c, d2, s);
  }

  /** Whether every block that [loc, loc + count) touches lies on a device of `n` bytes. */
  predicate BlocksExist(loc: nat, count: nat, blockSize: nat, n: nat)
    requires blockSize > 0
  {
    count == 0 || FloorTo(loc + count - 1, blockSize) + blockSize <= n
  }

  /** Where block `b` starts: `b` times the block size. */
  function StartOf(b: nat, blockSize: nat): nat
  {
    if b == 0 then 0 else StartOf(b - 1, blockSize) + blockSize
  }

  /** Where the block of position `pos` starts: `pos` rounded down to a block boundary. */
  function FloorTo(pos: nat, blockSize: nat): nat
    requires blockSize > 0
  {
    if pos < blockSize then 0 else FloorTo(pos - blockSize, blockSize) + blockSize
  }

  lemma {:induction false} FloorFacts(pos: nat, blockSize: nat)
    requires blockSize > 0
    ensures FloorTo(pos, blockSize) <= pos < FloorTo(pos, blockSize) + blockSize
    ensures FloorTo(pos, blockSize) == StartOf(pos / blockSize, blockSize) == pos - pos % blockSize
  {
    if pos < blockSize {
      DivUnique(pos, 0, pos, blockSize);
    } else {
      FloorFacts(pos - blockSize, blockSize);
      DivAdd(pos - blockSize, 1, blockSize);
    }
  }

  lemma {:induction false} FloorMonotone(a: nat, b: nat, blockSize: nat)
    requires blockSize > 0 && a <= b
    ensures FloorTo(a, blockSize) <= FloorTo(b, blockSize)
  {
    if a >= blockSize {
      FloorMonotone(a - blockSize, b - blockSize, blockSize);
    }
  }

  lemma {:induction false} FloorSame(pos: nat, x: nat, blockSize: nat)
    requires blockSize > 0 && FloorTo(pos, blockSize) <= x < FloorTo(pos, blockSize) + blockSize
    ensures FloorTo(x, blockSize) == FloorTo(pos, blockSize)
  {
    if pos >= blockSize {
      FloorSame(pos - blockSize, x - blockSize, blockSize);
    }
  }

  class Device {
    const blockSize: nat
    ghost const orig: seq<Byte>
    var disk: seq<Byte>
    const cache: array<Byte>
    var cachedBlock: int
    var dirty: bool
    var log: seq<Saved>
    var uninstalling: bool

    ghost predicate Shape()
      reads this, cache
    {
      && blockSize > 0 && cache.Length == blockSize && cachedBlock >= -1
      && (cachedBlock >= 0 ==> StartOf(cachedBlock, blockSize) + blockSize <= |disk|)
      && (dirty ==> cachedBlock >= 0)
    }

    /** A clean cached block is the block on the device. */
    ghost predicate Coherent()
      requires Shape()
      reads this, cache
    {
      cachedBlock >= 0 && !dirty ==> cache[..] == disk[StartOf(cachedBlock, blockSize)..StartOf(cachedBlock, blockSize) + blockSize]
    }

    ghost predicate Valid()
      reads this, cache
    {
      Shape() && Coherent()
    }

    /** The bytes a reader of the device sees: the device with the cached block laid over it. */
    ghost function Contents(): (c: seq<Byte>)
      requires Shape()
      reads this, cache
      ensures |c| == |disk|
    {
      if cachedBlock < 0 then disk else Patch(disk, StartOf(cachedBlock, blockSize), cache[..])
    }

    /** Opening the device caches its first block; the block size is the first of 512, 2048
        and 4096 that the device can serve. */
    constructor (bytes: seq<Byte>, size: nat)
      requires 0 < size <= |bytes|
      ensures Valid() && Contents() == bytes == disk == orig && log == [] && !uninstalling && !dirty && blockSize == size
      ensures fresh(cache)
    {
      blockSize := size;
      orig := bytes;
      disk := bytes;
      cache := new Byte[size](i requires 0 <= i < size <= |bytes| => bytes[i]);
      cachedBlock := 0;
      dirty := false;
      log := [];
      uninstalling := false;
    }

    method FlushCache()
      requires Valid()
      modifies this`disk, this`dirty
      ensures Valid() && !dirty && disk == old(Contents()) && Contents() == old(Contents())
    {
      if !dirty {
        return;
      }
      disk := Patch(disk, StartOf(cachedBlock, blockSize), cache[..]);
      dirty := false;
    }

    lemma CleanContents()
      requires Valid() && !dirty
      ensures Contents() == disk
    {
      if cachedBlock >= 0 {
        PatchSame(disk, StartOf(cachedBlock, blockSize), blockSize);
      }
    }

    /** Reads block `b` of the device into a clean cache. */
    method LoadBlock(b: nat)
      requires Valid() && !dirty && StartOf(b, blockSize) + blockSize <= |disk|
      modifies this`cachedBlock, cache
      ensures Valid() && cachedBlock == b && Contents() == disk
    {
      forall i | 0 <= i < blockSize {
        cache[i] := disk[StartOf(b, blockSize) + i];
      }
      cachedBlock := b;
      assert cache[..] == disk[StartOf(b, blockSize)..StartOf(b, blockSize) + blockSize];
      CleanContents();
    }

    /** Brings block `b` into the cache; the block must lie wholly on the device. */
    method CacheBlock(b: nat) returns (ok: bool)
      requires Valid()
      modifies this`disk, this`dirty, this`cachedBlock, cache
      ensures ok <==> old(cachedBlock) == b || StartOf(b, blockSize) + blockSize <= |disk|
      ensures ok ==> Valid() && cachedBlock == b && Contents() == old(Contents())
      ensures disk == old(disk) || disk == old(Contents())
      ensures !ok ==> Shape() && !dirty
    {
      if cachedBlock == b {
        return true;
      }
      if dirty {
        FlushCache();
      }
      CleanContents();
      if StartOf(b, blockSize) + blockSize > |disk| {
        // a short read may leave anything in the buffer
        modify cache;
        return false;
      }
      LoadBlock(b);
      ok := true;
    }

    /** Whether every block that [loc, loc + count) touches lies on the device. */
    predicate InRange(loc: nat, count: nat)
      requires blockSize > 0
      reads this`disk
    {
      BlocksExist(loc, count, blockSize, |disk|)
    }

    /** A range on the device has every one of its blocks there. */
    lemma RangeHas(pos: nat, loc: nat, count: nat)
      requires blockSize > 0 && loc <= pos < loc + count && InRange(loc, count)
      ensures InRange(pos, 1)
    {
      FloorMonotone(pos, loc + count - 1, blockSize);
    }

    /** The block that serves the first byte of a chunk serves the whole chunk. */
    lemma RangeGrows(loc: nat, progress: nat, chunk: nat)
      requires blockSize > 0 && 0 < chunk && loc + progress + chunk <= FloorTo(loc + progress, blockSize) + blockSize
      requires InRange(loc + progress, 1)
      ensures InRange(loc, progress + chunk)
    {
      FloorFacts(loc + progress, blockSize);
      FloorSame(loc + progress, loc + progress + chunk - 1, blockSize);
      assert loc + (progress + chunk) - 1 == loc + progress + chunk - 1;
    }

    /** The block of a position and the offset in it. */
    method Locate(pos: nat) returns (block: nat, offset: nat)
      requires blockSize > 0
      ensures block == pos / blockSize && offset == pos % blockSize
      ensures StartOf(block, blockSize) == FloorTo(pos, blockSize) == pos - offset && offset < blockSize
    {
      FloorFacts(pos, blockSize);
      block, offset := pos / blockSize, pos % blockSize;
    }

    /** How much of `rest` bytes from `pos` on the block of `pos` holds. */
    function Chunk(pos: nat, rest: nat): (n: nat)
      requires blockSize > 0
      ensures n <= rest && pos + n <= FloorTo(pos, blockSize) + blockSize && (rest > 0 ==> n > 0)
    {
      FloorFacts(pos, blockSize);
      if rest > FloorTo(pos, blockSize) + blockSize - pos then FloorTo(pos, blockSize) + blockSize - pos else rest
    }

    method ReadChunk(pos: nat, rest: nat) returns (ok: bool, data: seq<Byte>)
      requires Valid() && rest > 0
      modifies this`disk, this`dirty, this`cachedBlock, cache
      ensures disk == old(disk) || disk == old(Contents())
      ensures ok <==> InRange(pos, 1)
      ensures ok ==> pos + Chunk(pos, rest) <= |disk| && data == old(Contents())[pos..pos + Chunk(pos, rest)]
      ensures ok ==> Valid() && Contents() == old(Contents())
      ensures !ok ==> Shape() && !dirty
    {
      data := [];
      var block, offset := Locate(pos);
      ok := CacheBlock(block);
      if ok {
        data := cache[..][offset..offset + Chunk(pos, rest)];
        PatchSlice(disk, StartOf(block, blockSize), cache[..], offset, |data|);
        assert data == Contents()[pos..pos + |data|];
      }
    }

    /** One round of reading: the block is missing exactly when the range is not there. */
    method ReadNext(loc: nat, count: nat, progress: nat, data: seq<Byte>, ghost c: seq<Byte>, ghost d: seq<Byte>)
      returns (ok: bool, more: seq<Byte>)
      requires Valid() && progress < count && Contents() == c && (disk == d || disk == c)
      requires InRange(loc, progress) && HasRead(c, loc, progress, data)
      modifies this`disk, this`dirty, this`cachedBlock, cache
      ensures disk == d || disk == c
      ensures ok ==> Valid() && Contents() == c && more != [] && progress + |more| <= count
      ensures ok ==> InRange(loc, progress + |more|) && HasRead(c, loc, progress + |more|, data + more)
      ensures !ok ==> !InRange(loc, count) && Shape() && !dirty
    {
      if InRange(loc, count) {
        RangeHas(loc + progress, loc, count);
      }
      ok, more := ReadChunk(loc + progress, count - progress);
      if ok {
        RangeGrows(loc, progress, |more|);
        ReadStep(c, loc, progress, data, more);
      }
    }

    method Read(loc: nat, count: nat) returns (ok: bool, data: seq<Byte>)
      requires Valid()
      modifies this`disk, this`dirty, this`cachedBlock, cache
      ensures ok <==> InRange(loc, count)
      ensures ok ==> |data| == count && (count > 0 ==> loc + count <= |disk| == |old(Contents())|)
      ensures ok && count > 0 ==> data == old(Contents())[loc..loc + count]
      ensures ok ==> Valid() && Contents() == old(Contents())
      ensures disk == old(disk) || disk == old(Contents())
      ensures !ok ==> Shape() && !dirty
    {
      ghost var c, d := Contents(), disk;
      data := [];
      var progress := 0;
      while progress < count
        invariant progress <= count && Valid()
        invariant Contents() == c && (disk == d || disk == c)
        invariant InRange(loc, progress) && HasRead(c, loc, progress, data)
      {
        var chunk;
        ok, chunk := ReadNext(loc, count, progress, data, c, d);
        if !ok {
          return;
        }
        data := data + chunk;
        progress := progress + |chunk|;
      }
      ok := true;
    }

    ghost predicate HasRead(c: seq<Byte>, loc: nat, p: nat, data: seq<Byte>)
    {
      if p == 0 then data == [] else loc + p <= |c| && data == c[loc..loc + p]
    }

    lemma ReadStep(c: seq<Byte>, loc: nat, p: nat, data: seq<Byte>, chunk: seq<Byte>)
      requires HasRead(c, loc, p, data) && |chunk| > 0
      requires loc + p + |chunk| <= |c| && chunk == c[loc + p..loc + p + |chunk|]
      ensures HasRead(c, loc, p + |chunk|, data + chunk)
    {
    }

    /** Overwrites part of the cached block. */
    method PatchCache(pos: nat, offset: nat, piece: seq<Byte>)
      requires Valid() && cachedBlock >= 0 && offset + |piece| <= blockSize
      requires pos == StartOf(cachedBlock, blockSize) + offset
      modifies this`dirty, cache
      ensures Valid() && Contents() == Patch(old(Contents()), pos, piece)
    {
      ghost var before, c, start := cache[..], Contents(), StartOf(cachedBlock, blockSize);
      assert c == Patch(disk, start, before);
      forall i | 0 <= i < |piece| {
        cache[offset + i] := piece[i];
      }
      dirty := true;
      assert cache[..] == Patch(before, offset, piece);
      PatchInside(disk, start, before, offset, piece);
      assert Contents() == Patch(c, pos, piece);
    }

    method WriteChunk(pos: nat, data: seq<Byte>) returns (ok: bool)
      requires Valid() && |data| > 0
      modifies this`disk, this`dirty, this`cachedBlock, cache
      ensures |disk| == |old(disk)|
      ensures ok <==> InRange(pos, 1)
      ensures ok ==> pos + Chunk(pos, |data|) <= |disk|
      ensures ok ==> Valid() && Contents() == Patch(old(Contents()), pos, data[..Chunk(pos, |data|)])
      ensures ok ==> disk == old(disk) || disk == old(Contents())
    {
      var block, offset := Locate(pos);
      ok := CacheBlock(block);
      if ok {
        PatchCache(pos, offset, data[..Chunk(pos, |data|)]);
      }
    }

    /** The first `p` bytes of a write to contents `c` on device bytes `d` are done. */
    ghost predicate Written(c: seq<Byte>, d: seq<Byte>, loc: nat, data: seq<Byte>, p: nat)
      requires Shape()
      reads this, cache
    {
      && p <= |data| && |disk| == |c| && (p > 0 ==> loc + p <= |c|)
      && Contents() == (if p == 0 then c else Patch(c, loc, data[..p]))
      && FromEither(disk, d, c, loc, loc + |data|)
    }

    method WriteNext(loc: nat, data: seq<Byte>, progress: nat, ghost c: seq<Byte>, ghost d: seq<Byte>) returns (ok: bool)
      requires Valid() && progress < |data| && Written(c, d, loc, data, progress)
      modifies this`disk, this`dirty, this`cachedBlock, cache
      ensures |disk| == |c| && (ok <==> InRange(loc + progress, 1))
      ensures ok ==> Valid() && Written(c, d, loc, data, progress + Chunk(loc + progress, |data| - progress))
    {
      ghost var d1, c1 := disk, Contents();
      ok := WriteChunk(loc + progress, data[progress..]);
      if ok {
        ghost var chunk := Chunk(loc + progress, |data| - progress);
        WriteStep(c, d, loc, data, progress, chunk, c1, d1, disk);
        assert Contents() == Patch(c, loc, data[..progress + chunk]);
      }
    }

    /** The chunked writing loop, without logging. */
    method WriteThrough(loc: nat, data: seq<Byte>) returns (ok: bool)
      requires Valid()
      modifies this`disk, this`dirty, this`cachedBlock, cache
      ensures |disk| == |old(disk)| && (ok <==> InRange(loc, |data|))
      ensures ok ==> Valid() && (|data| > 0 ==> loc + |data| <= |disk|)
      ensures ok ==> Contents() == PutBack(old(Contents()), Saved(loc, data))
      ensures ok ==> FromEither(disk, old(disk), old(Contents()), loc, loc + |data|)
    {
      ghost var c, d := Contents(), disk;
      var progress := 0;
      while progress < |data|
        invariant Valid() && Written(c, d, loc, data, progress) && InRange(loc, progress)
      {
        if InRange(loc, |data|) {
          RangeHas(loc + progress, loc, |data|);
        }
        ok := WriteNext(loc, data, progress, c, d);
        if !ok {
          return;
        }
        var chunk := Chunk(loc + progress, |data| - progress);
        RangeGrows(loc, progress, chunk);
        progress := progress + chunk;
      }
      assert data[..|data|] == data;
      assert Contents() == PutBack(c, Saved(loc, data));
      ok := true;
    }

    lemma WriteStep(c: seq<Byte>, d: seq<Byte>, loc: nat, data: seq<Byte>, p: nat, n: nat,
                    c1: seq<Byte>, d1: seq<Byte>, d2: seq<Byte>)
      requires p + n <= |data| && loc + p + n <= |c| && n > 0
      requires c1 == if p == 0 then c else Patch(c, loc, data[..p])
      requires FromEither(d1, d, c, loc, loc + |data|) && (d2 == d1 || d2 == c1)
      ensures Patch(c1, loc + p, data[p..][..n]) == Patch(c, loc, data[..p + n])
      ensures FromEither(d2, d, c, loc, loc + |data|)
    {
    }

    /** The log can repair the device, also if the cached block is lost. */
    ghost predicate Repairable()
      requires blockSize > 0
      reads this
    {
      && Faithful(log, orig) && DiffersOnlyWhereLogged(log, orig, disk)
      && forall i :: 0 <= i < |log| ==> InRange(log[i].loc, |log[i].data|)
    }

    /** Between operations the logical contents, too, differ from the original only where logged. */
    ghost predicate Logged()
      requires Shape()
      reads this, cache
    {
      Repairable() && DiffersOnlyWhereLogged(log, orig, Contents())
    }

    /** Reading on behalf of the installer: the log stays good for the device. */
    method Save(loc: nat, count: nat) returns (ok: bool, saved: seq<Byte>)
      requires Valid() && Logged()
      modifies this`disk, this`dirty, this`cachedBlock, cache
      ensures ok <==> InRange(loc, count)
      ensures Repairable() && Shape() && |disk| == |old(disk)|
      ensures ok ==> Valid() && Logged() && Contents() == old(Contents())
      ensures ok ==> |saved| == count && (count > 0 ==> loc + count <= |disk|)
      ensures ok && count > 0 ==> saved == Contents()[loc..loc + count]
    {
      ghost var c, d := Contents(), disk;
      ok, saved := Read(loc, count);
      EitherNothing(log, orig, d, c, disk);
    }

    /** Writes what fits, having saved what was there. */
    method WriteSaved(loc: nat, data: seq<Byte>, saved: seq<Byte>)
      requires Valid() && Logged() && InRange(loc, |data|) && |saved| == |data|
      requires data != [] ==> loc + |data| <= |disk| && saved == Contents()[loc..loc + |data|]
      modifies this`disk, this`dirty, this`cachedBlock, this`log, cache
      ensures Valid() && Logged() && |disk| == |old(disk)| && log == old(log) + [Saved(loc, saved)]
      ensures Contents() == PutBack(old(Contents()), Saved(loc, data))
    {
      ghost var c, d := Contents(), disk;
      var ok := WriteThrough(loc, data);
      LoggedWrite(log, orig, d, c, disk, Saved(loc, saved), data);
      log := log + [Saved(loc, saved)];
    }

    method Write(loc: nat, data: seq<Byte>) returns (ok: bool)
      requires Valid() && Logged() && !uninstalling
      modifies this`disk, this`dirty, this`cachedBlock, this`log, cache
      ensures ok <==> old(|log|) < LOG_MAX && InRange(loc, |data|)
      ensures Repairable() && Shape() && |disk| == |old(disk)|
      ensures ok ==> Valid() && Logged() && SpansOf(log) == SpansOf(old(log)) + [Span(loc, |data|)]
      ensures ok ==> FitsOne(Saved(loc, data), |disk|) && Contents() == PutBack(old(Contents()), Saved(loc, data))
      ensures !ok ==> log == old(log)
    {
      if |log| >= LOG_MAX {
        return false;
      }
      var saved;
      ok, saved := Save(loc, |data|);
      if ok {
        WriteSaved(loc, data, saved);
      }
    }

    method ReverseLog()
      modifies this`log
      ensures log == Reversed(old(log))
    {
      var rev := log;
      var i, j := 0, |log| - 1;
      while i < |log|
        invariant 0 <= i <= |log| && j == |log| - 1 - i && |rev| == |log|
        invariant forall k :: j < k < |log| ==> rev[k] == log[|log| - 1 - k]
      {
        rev := rev[j := log[i]];
        i, j := i + 1, j - 1;
      }
      log := rev;
    }

    /** The first `i` pieces of the log have been written back to a device that held `d`. */
    ghost predicate BackUpTo(d: seq<Byte>, i: nat)
      requires Shape() && i <= |log|
      reads this, cache
    {
      Fits(log[..i], |d|) && Contents() == WriteBack(d, log[..i])
    }

    method PutBackNext(i: nat, ghost d: seq<Byte>)
      requires Valid() && i < |log| && |disk| == |d| && BackUpTo(d, i) && FitsOne(log[i], |d|) && InRange(log[i].loc, |log[i].data|)
      modifies this`disk, this`dirty, this`cachedBlock, cache
      ensures Valid() && |disk| == |d| && BackUpTo(d, i + 1)
    {
      var s := log[i];
      assert log[..i + 1] == log[..i] + [s];
      WriteBackAppend(d, log[..i], s);
      var ok := WriteThrough(s.loc, s.data);
    }

    /** Drops the cached block, writes the log back in its present order and flushes. */
    method Uninstall()
      requires Shape() && Fits(log, |disk|)
      requires forall i :: 0 <= i < |log| ==> InRange(log[i].loc, |log[i].data|)
      modifies this`disk, this`dirty, this`cachedBlock, this`uninstalling, cache
      ensures Valid() && !dirty && uninstalling && disk == WriteBack(old(disk), log)
    {
      uninstalling := true;
      dirty := false;
      cachedBlock := -1;
      ghost var d := disk;
      var i := 0;
      while i < |log|
        invariant 0 <= i <= |log| && Valid() && uninstalling && |disk| == |d| && BackUpTo(d, i)
      {
        PutBackNext(i, d);
        i := i + 1;
      }
      assert log[..|log|] == log;
      FlushCache();
    }

    /** Undoes everything from any repairable state, whatever the cache holds. */
    method Rollback()
      requires Shape() && Repairable()
      modifies this`disk, this`dirty, this`cachedBlock, this`log, this`uninstalling, cache
      ensures Valid() && disk == orig && log == Reversed(old(log))
    {
      RollbackRestores(log, orig, disk);
      ReverseLog();
      Uninstall();
    }

    method Serve(q: Request) returns (ok: bool)
      requires Valid() && Logged() && !uninstalling
      modifies this`disk, this`dirty, this`cachedBlock, this`log, cache
      ensures ok <==> CanServe(q, |old(log)|, blockSize, |disk|)
      ensures ok ==> SpansOf(log) == SpansOf(old(log)) + if q.WriteAt? then [Span(q.loc, |q.data|)] else []
      ensures Repairable() && Shape() && |disk| == |old(disk)|
      ensures ok ==> Valid() && Logged()
      ensures ok ==> FitsRequest(q, |disk|) && Contents() == After(old(Contents()), q)
      ensures !ok ==> log == old(log)
    {
      match q
      case WriteAt(loc, data) =>
        ok := Write(loc, data);
      case ReadAt(loc, count) =>
        var data;
        ok, data := Save(loc, count);
    }

    method ServeAll(requests: seq<Request>) returns (ok: bool)
      requires Valid() && Logged() && !uninstalling && log == [] && Contents() == orig
      modifies this`disk, this`dirty, this`cachedBlock, this`log, cache
      ensures Repairable() && Shape() && |disk| == |orig|
      ensures ok <==> CanServeAll(requests, blockSize, |orig|)
      ensures ok ==> Valid() && Logged()
      ensures ok ==> Served(orig, requests) && Contents() == Outcome(orig, requests)
      ensures ok ==> SpansOf(log) == WrittenSpans(requests)
    {
      var n := 0;
      while n < |requests|
        invariant 0 <= n <= |requests| && Valid() && Logged() && |disk| == |orig|
        invariant Served(orig, requests[..n]) && Contents() == Outcome(orig, requests[..n])
        invariant SpansOf(log) == WrittenSpans(requests[..n]) && |log| == Writes(requests[..n])
        invariant CanServeAll(requests[..n], blockSize, |orig|)
      {
        assert requests[..n + 1] == requests[..n] + [requests[n]];
        CanServePrefix(requests, n + 1, blockSize, |orig|);
        ok := Serve(requests[n]);
        if !ok {
          return;
        }
        OutcomeAppend(orig, requests[..n], requests[n]);
        n := n + 1;
      }
      assert requests[..n] == requests;
      ok := true;
    }

    /** Writing the log back, which can be done, gives the original bytes. */
    ghost predicate Undoes()
      requires blockSize > 0
      reads this
    {
      && Fits(log, |disk|) && WriteBack(disk, log) == orig
      && forall i :: 0 <= i < |log| ==> InRange(log[i].loc, |log[i].data|)
    }

    /** Puts everything on the device and turns the log round for a later uninstallation. */
    method Commit()
      requires Valid() && Logged()
      modifies this`disk, this`dirty, this`log
      ensures Shape() && disk == old(Contents()) && Undoes() && log == Reversed(old(log))
    {
      FlushCache();
      RollbackRestores(log, orig, disk);
      ReverseLog();
    }

    /** One run of the installer. A request that cannot be served, or a full log, ends it early and
        undoes it; a finished run leaves all writes on the device and the reversed log for later. */
    method Install(requests: seq<Request>) returns (ok: bool)
      requires Valid() && log == [] && !uninstalling && Contents() == disk == orig
      modifies this`disk, this`dirty, this`cachedBlock, this`log, this`uninstalling, cache
      ensures Shape() && |disk| == |orig|
      ensures ok <==> CanServeAll(requests, blockSize, |orig|)
      ensures !ok ==> disk == orig
      ensures ok ==> Served(orig, requests) && disk == Outcome(orig, requests)
      ensures ok ==> Undoes() && Reflects(log, WrittenSpans(requests))
    {
      ok := ServeAll(requests);
      if ok {
        Commit();
      } else {
        Rollback();
      }
    }
  }

  datatype Request = WriteAt(loc: nat, data: seq<Byte>) | ReadAt(rloc: nat, count: nat)

  predicate FitsRequest(q: Request, n: nat) { q.WriteAt? ==> FitsOne(Saved(q.loc, q.data), n) }

  /** What one request does to a plain byte array. */
  function After(d: seq<Byte>, q: Request): (r: seq<Byte>)
    requires FitsRequest(q, |d|)
    ensures |r| == |d|
  {
    if q.WriteAt? then PutBack(d, Saved(q.loc, q.data)) else d
  }

  predicate Served(d: seq<Byte>, requests: seq<Request>)
  {
    forall i :: 0 <= i < |requests| ==> FitsRequest(requests[i], |d|)
  }

  /** What the requests in turn do to a plain byte array. */
  function Outcome(d: seq<Byte>, requests: seq<Request>): (r: seq<Byte>)
    requires Served(d, requests)
    ensures |r| == |d|
  {
    if requests == [] then d
    else After(Outcome(d, requests[..|requests| - 1]), requests[|requests| - 1])
  }

  /** The place and the length of a write or of a saved piece. */
  datatype Span = Span(loc: nat, count: nat)

  function SpansOf(log: seq<Saved>): (r: seq<Span>)
    ensures |r| == |log| && forall i :: 0 <= i < |log| ==> r[i] == Span(log[i].loc, |log[i].data|)
  {
    seq(|log|, i requires 0 <= i < |log| => Span(log[i].loc, |log[i].data|))
  }

  /** The writes among the requests. */
  function WrittenSpans(requests: seq<Request>): seq<Span> {
    if requests == [] then [] else
    var q := requests[|requests| - 1];
    WrittenSpans(requests[..|requests| - 1]) + if q.WriteAt? then [Span(q.loc, |q.data|)] else []
  }

  /** The log has one piece for each write, the last one first. */
  ghost predicate Reflects(log: seq<Saved>, spans: seq<Span>) {
    |log| == |spans| && forall i :: 0 <= i < |log| ==> Span(log[i].loc, |log[i].data|) == spans[|log| - 1 - i]
  }

  predicate NoEmptyWrite(requests: seq<Request>) {
    forall i :: 0 <= i < |requests| && requests[i].WriteAt? ==> requests[i].data != []
  }

  lemma {:induction false} SpansFit(requests: seq<Request>, blockSize: nat, n: nat)
    requires blockSize > 0 && CanServeAll(requests, blockSize, n)
    ensures |WrittenSpans(requests)| == Writes(requests) <= LOG_MAX
    decreases |requests|
  {
    if requests == [] {
    } else {
      SpansFit(requests[..|requests| - 1], blockSize, n);
    }
  }

  predicate NoEmptySpan(spans: seq<Span>) {
    forall i :: 0 <= i < |spans| ==> spans[i].count != 0
  }

  lemma {:induction false} SpansNotEmpty(requests: seq<Request>)
    ensures NoEmptyWrite(requests) <==> NoEmptySpan(WrittenSpans(requests))
  {
    if requests == [] {
    } else {
      var n := |requests| - 1;
      SpansNotEmpty(requests[..n]);
      var before, spans := WrittenSpans(requests[..n]), WrittenSpans(requests);
      assert forall i :: 0 <= i < n ==> requests[i] == requests[..n][i];
      assert forall i :: 0 <= i < |before| ==> spans[i] == before[i];
      if requests[n].WriteAt? {
        assert spans[|before|].count == |requests[n].data|;
      }
      assert NoEmptySpan(before) && NoEmptyWrite(requests) ==> NoEmptySpan(spans);
    }
  }

  lemma {:induction false} SpansPlaced(requests: seq<Request>)
    requires forall q :: q in requests && q.WriteAt? ==> q.loc < Power256(8)
    ensures forall i :: 0 <= i < |WrittenSpans(requests)| ==> WrittenSpans(requests)[i].loc < Power256(8)
  {
    if requests == [] {
    } else {
      SpansPlaced(requests[..|requests| - 1]);
      assert requests[|requests| - 1] in requests;
    }
  }

  function Writes(requests: seq<Request>): nat
  {
    if requests == [] then 0
    else Writes(requests[..|requests| - 1]) + if requests[|requests| - 1].WriteAt? then 1 else 0
  }

  /** A request can be served when its blocks lie on the device and, for a write, the log has room. */
  predicate CanServe(q: Request, logged: nat, blockSize: nat, n: nat)
    requires blockSize > 0
  {
    match q
    case WriteAt(loc, data) => logged < LOG_MAX && BlocksExist(loc, |data|, blockSize, n)
    case ReadAt(loc, count) => BlocksExist(loc, count, blockSize, n)
  }

  predicate CanServeAll(requests: seq<Request>, blockSize: nat, n: nat)
    requires blockSize > 0
  {
    requests == [] ||
    (var before := requests[..|requests| - 1];
     CanServeAll(before, blockSize, n) && CanServe(requests[|requests| - 1], Writes(before), blockSize, n))
  }

  lemma {:induction false} CanServePrefix(requests: seq<Request>, k: nat, blockSize: nat, n: nat)
    requires blockSize > 0 && k <= |requests|
    ensures CanServeAll(requests, blockSize, n) ==> CanServeAll(requests[..k], blockSize, n)
    ensures k > 0 ==>
      (CanServeAll(requests[..k], blockSize, n) <==>
        CanServeAll(requests[..k - 1], blockSize, n) && CanServe(requests[k - 1], Writes(requests[..k - 1]), blockSize, n))
  {
    if k > 0 {
      assert requests[..k][..k - 1] == requests[..k - 1];
    }
    if k < |requests| {
      CanServePrefix(requests[..|requests| - 1], k, blockSize, n);
      assert requests[..|requests| - 1][..k] == requests[..k];
    } else {
      assert requests[..k] == requests;
    }
  }

  lemma OutcomeAppend(d: seq<Byte>, requests: seq<Request>, q: Request)
    requires Served(d, requests) && FitsRequest(q, |d|)
    ensures Served(d, requests + [q])
    ensures Outcome(d, requests + [q]) == After(Outcome(d, requests), q)
    ensures Writes(requests + [q]) == Writes(requests) + if q.WriteAt? then 1 else 0
    ensures WrittenSpans(requests + [q]) == WrittenSpans(requests) + if q.WriteAt? then [Span(q.loc, |q.data|)] else []
  {
    assert (requests + [q])[..|requests|] == requests;
  }

  /** `n` as `k` bytes, least significant first. */
  function Word(n: nat, k: nat): (r: seq<Byte>)
    ensures |r| == k
  {
    if k == 0 then [] else [n % 256] + Word(n / 256, k - 1)
  }

  function Number(bytes: seq<Byte>): nat
  {
    if bytes == [] then 0 else bytes[0] + 256 * Number(bytes[1..])
  }

  function Power256(k: nat): nat
  {
    if k == 0 then 1 else 256 * Power256(k - 1)
  }

  lemma {:induction false} NumberOfWord(n: nat, k: nat)
    requires n < Power256(k)
    ensures Number(Word(n, k)) == n
  {
    if k == 0 {
    } else {
      assert n / 256 < Power256(k - 1);
      NumberOfWord(n / 256, k - 1);
      assert Word(n, k)[1..] == Word(n / 256, k - 1);
    }
  }

  /** Locations and lengths fit the 64-bit fields of the file. */
  predicate Storable(s: Saved)
  {
    s.loc < Power256(8) && |s.data| < Power256(8)
  }

  function EncodeSaved(s: Saved): seq<Byte>
  {
    Word(s.loc, 8) + Word(|s.data|, 8) + s.data
  }

  /** What is written of the pieces, and whether all of them are: nothing can be written of an empty piece. */
  function EncodeAll(log: seq<Saved>): (r: (seq<Byte>, bool))
    ensures r.1 <==> NoEmptyPiece(log)
  {
    if log == [] then ([], true)
    else if log[0].data == [] then (Word(log[0].loc, 8) + Word(0, 8), false)
    else
      var rest := EncodeAll(log[1..]);
      NonEmptyTail(log);
      (EncodeSaved(log[0]) + rest.0, rest.1)
  }

  /** The file that is left behind, and whether the storing succeeded. */
  function Encode(log: seq<Saved>): (seq<Byte>, bool)
  {
    (Word(|log|, 8) + EncodeAll(log).0, EncodeAll(log).1)
  }

  /** Reads one saved piece; a piece of length zero cannot be read back. */
  function DecodeSaved(file: seq<Byte>): (r: Option<(Saved, seq<Byte>)>)
    ensures r.Some? ==> |r.value.1| < |file|
  {
    if |file| < 16 then None
    else
      var loc, count := Number(file[..8]), Number(file[8..16]);
      if count == 0 || 16 + count > |file| then None
      else Some((Saved(loc, file[16..16 + count]), file[16 + count..]))
  }

  function DecodeAll(file: seq<Byte>, n: nat): Option<seq<Saved>>
    decreases n
  {
    if n == 0 then Some([])
    else
      match DecodeSaved(file)
      case None => None
      case Some((s, rest)) =>
        match DecodeAll(rest, n - 1)
        case None => None
        case Some(log) => Some([s] + log)
  }

  function Decode(file: seq<Byte>): Option<seq<Saved>>
  {
    if |file| < 8 then None else DecodeAll(file[8..], Number(file[..8]))
  }

  predicate NoEmptyPiece(log: seq<Saved>)
  {
    forall i :: 0 <= i < |log| ==> log[i].data != []
  }

  lemma NonEmptyTail(log: seq<Saved>)
    requires log != []
    ensures NoEmptyPiece(log) <==> log[0].data != [] && NoEmptyPiece(log[1..])
  {
    assert forall i :: 1 <= i < |log| ==> log[i] == log[1..][i - 1];
  }

  lemma DecodeOneSaved(s: Saved, rest: seq<Byte>)
    requires Storable(s)
    ensures DecodeSaved(EncodeSaved(s) + rest) == if s.data == [] then None else Some((s, rest))
  {
    var file := EncodeSaved(s) + rest;
    assert file[..8] == Word(s.loc, 8);
    assert file[8..16] == Word(|s.data|, 8);
    NumberOfWord(s.loc, 8);
    NumberOfWord(|s.data|, 8);
    assert file[16..16 + |s.data|] == s.data;
    assert file[16 + |s.data|..] == rest;
  }

  lemma EncodedFirst(log: seq<Saved>)
    requires log != []
    ensures EncodeAll(log).0 == EncodeSaved(log[0]) + if log[0].data == [] then [] else EncodeAll(log[1..]).0
  {
  }

  lemma DecodeOneMore(file: seq<Byte>, n: nat)
    ensures DecodeAll(file, n + 1) ==
            var first := DecodeSaved(file);
            if first.None? then None
            else
              var tail := DecodeAll(first.value.1, n);
              if tail.None? then None else Some([first.value.0] + tail.value)
  {
  }

  /** Reading what was written of a log reads its first piece, if that is not empty, and goes on. */
  lemma DecodeStep(log: seq<Saved>, n: nat)
    requires log != [] && Storable(log[0])
    ensures DecodeAll(EncodeAll(log).0, n + 1) ==
            if log[0].data == [] then None
            else var tail := DecodeAll(EncodeAll(log[1..]).0, n); if tail.None? then None else Some([log[0]] + tail.value)
  {
    EncodedFirst(log);
    var rest := if log[0].data == [] then [] else EncodeAll(log[1..]).0;
    DecodeOneSaved(log[0], rest);
    DecodeOneMore(EncodeAll(log).0, n);
  }

  lemma {:induction false} DecodeEncodedAll(log: seq<Saved>)
    requires forall i :: 0 <= i < |log| ==> Storable(log[i])
    ensures DecodeAll(EncodeAll(log).0, |log|) == if NoEmptyPiece(log) then Some(log) else None
    decreases |log|
  {
    if log == [] {
    } else {
      assert log == [log[0]] + log[1..];
      DecodeStep(log, |log| - 1);
      NonEmptyTail(log);
      DecodeEncodedAll(log[1..]);
    }
  }

  /** Storing succeeds exactly when no piece is empty; then the file reads back as the log, and otherwise not at all. */
  lemma StoreLoadRoundTrip(log: seq<Saved>)
    requires |log| <= LOG_MAX && forall i :: 0 <= i < |log| ==> Storable(log[i])
    ensures Encode(log).1 <==> NoEmptyPiece(log)
    ensures Decode(Encode(log).0) == if NoEmptyPiece(log) then Some(log) else None
  {
    var file := Encode(log).0;
    assert file[..8] == Word(|log|, 8) && file[8..] == EncodeAll(log).0;
    assert Power256(2) <= Power256(8);
    NumberOfWord(|log|, 8);
    DecodeEncodedAll(log);
  }

  // ----- Where the pieces stand in the file -----

  /** Where piece `i` begins: after the count and the pieces before it. */
  function PieceAt(log: seq<Saved>, i: nat): (p: nat)
    requires i <= |log|
  {
    if i == 0 then 8 else PieceAt(log, i - 1) + 16 + |log[i - 1].data|
  }

  /** The location in eight bytes, the length in eight bytes, and the data. */
  ghost predicate PieceLaid(file: seq<Byte>, log: seq<Saved>, i: nat)
    requires i < |log|
  {
    var p, data := PieceAt(log, i), log[i].data;
    && p + 16 + |data| <= |file|
    && Number(file[p..p + 8]) == log[i].loc && Number(file[p + 8..p + 16]) == |data|
    && file[p + 16..p + 16 + |data|] == data
  }

  ghost predicate LaidOut(file: seq<Byte>, log: seq<Saved>) {
    && |file| >= 8 && Number(file[..8]) == |log|
    && forall i :: 0 <= i < |log| ==> PieceLaid(file, log, i)
  }

  lemma Slices(file: seq<Byte>, p: nat, a: nat, b: nat)
    requires p <= |file| && a <= b && p + b <= |file|
    ensures file[p..][a..b] == file[p + a..p + b] && file[p..][b..] == file[p + b..]
  {
  }

  /** A piece is read at its place exactly when it is laid there and not empty. */
  lemma PieceRead(file: seq<Byte>, log: seq<Saved>, i: nat)
    requires i < |log| && PieceAt(log, i) <= |file|
    ensures
      PieceLaid(file, log, i) && log[i].data != [] <==>
        && PieceAt(log, i + 1) <= |file|
        && DecodeSaved(file[PieceAt(log, i)..]) == Some((log[i], file[PieceAt(log, i + 1)..]))
  {
    var p := PieceAt(log, i);
    if p + 16 <= |file| {
      Slices(file, p, 0, 8);
      Slices(file, p, 8, 16);
      var count := Number(file[p + 8..p + 16]);
      if p + 16 + count <= |file| {
        Slices(file, p, 16, 16 + count);
      }
    }
  }

  lemma {:induction false} LaidIsRead(file: seq<Byte>, log: seq<Saved>, i: nat)
    requires LaidOut(file, log) && NoEmptyPiece(log) && i <= |log|
    ensures PieceAt(log, i) <= |file| && DecodeAll(file[PieceAt(log, i)..], |log| - i) == Some(log[i..])
    decreases |log| - i
  {
    if i > 0 {
      assert PieceLaid(file, log, i - 1);
    }
    if i < |log| {
      LaidIsRead(file, log, i + 1);
      PieceRead(file, log, i);
      assert log[i..] == [log[i]] + log[i + 1..];
    }
  }

  lemma {:induction false} DecodedLength(file: seq<Byte>, n: nat)
    ensures DecodeAll(file, n).Some? ==> |DecodeAll(file, n).value| == n
    decreases n
  {
    if n > 0 && DecodeSaved(file).Some? {
      DecodedLength(DecodeSaved(file).value.1, n - 1);
    }
  }

  lemma ReadFirst(file: seq<Byte>, log: seq<Saved>)
    requires log != [] && DecodeAll(file, |log|) == Some(log)
    ensures DecodeSaved(file).Some? && DecodeSaved(file).value.0 == log[0]
    ensures DecodeAll(DecodeSaved(file).value.1, |log| - 1) == Some(log[1..])
  {
    var tail := DecodeAll(DecodeSaved(file).value.1, |log| - 1).value;
    assert log == [DecodeSaved(file).value.0] + tail;
    assert log[1..] == tail;
  }

  lemma PieceFits(file: seq<Byte>, log: seq<Saved>, i: nat)
    requires i < |log| && PieceAt(log, i) <= |file|
    requires DecodeSaved(file[PieceAt(log, i)..]).Some? && DecodeSaved(file[PieceAt(log, i)..]).value.0 == log[i]
    ensures PieceAt(log, i + 1) <= |file|
    ensures DecodeSaved(file[PieceAt(log, i)..]).value.1 == file[PieceAt(log, i + 1)..]
  {
    var p := PieceAt(log, i);
    Slices(file, p, 16, 16 + |log[i].data|);
  }

  /** The file goes on, where piece `i` should be, with this piece and those after it. */
  ghost predicate ReadsFrom(file: seq<Byte>, log: seq<Saved>, i: nat)
    requires i <= |log|
  {
    PieceAt(log, i) <= |file| && DecodeAll(file[PieceAt(log, i)..], |log| - i) == Some(log[i..])
  }

  lemma ReadsOn(file: seq<Byte>, log: seq<Saved>, i: nat)
    requires i < |log| && ReadsFrom(file, log, i)
    ensures ReadsFrom(file, log, i + 1) && PieceLaid(file, log, i) && log[i].data != []
  {
    ReadFirst(file[PieceAt(log, i)..], log[i..]);
    assert log[i..][1..] == log[i + 1..];
    PieceFits(file, log, i);
    PieceRead(file, log, i);
  }

  lemma {:induction false} ReadsAll(file: seq<Byte>, log: seq<Saved>, i: nat)
    requires i <= |log| && ReadsFrom(file, log, 0)
    ensures ReadsFrom(file, log, i)
  {
    if i > 0 {
      ReadsAll(file, log, i - 1);
      ReadsOn(file, log, i - 1);
    }
  }

  /** A file reads as a log exactly when it has its count and its pieces, none empty, one after the other. */
  lemma ReadExactly(file: seq<Byte>, log: seq<Saved>)
    ensures Decode(file) == Some(log) <==> LaidOut(file, log) && NoEmptyPiece(log)
  {
    if LaidOut(file, log) && NoEmptyPiece(log) {
      LaidIsRead(file, log, 0);
      assert log[0..] == log;
    }
    if Decode(file) == Some(log) {
      DecodedLength(file[8..], Number(file[..8]));
      assert log[0..] == log;
      forall i | 0 <= i < |log| ensures PieceLaid(file, log, i) && log[i].data != [] {
        ReadsAll(file, log, i);
        ReadsOn(file, log, i);
      }
    }
  }

  lemma {:induction false} EncodedLength(log: seq<Saved>, i: nat)
    requires NoEmptyPiece(log) && i <= |log|
    ensures PieceAt(log, i) + |EncodeAll(log[i..]).0| == PieceAt(log, |log|)
    decreases |log| - i
  {
    if i < |log| {
      assert log[i..][0] == log[i] && log[i..][1..] == log[i + 1..];
      EncodedFirst(log[i..]);
      EncodedLength(log, i + 1);
    }
  }

  /** What is stored of a log without an empty piece is laid out so, and ends with the last piece. */
  lemma StoredLaid(log: seq<Saved>)
    requires |log| <= LOG_MAX && NoEmptyPiece(log) && forall i :: 0 <= i < |log| ==> Storable(log[i])
    ensures LaidOut(Encode(log).0, log) && |Encode(log).0| == PieceAt(log, |log|)
  {
    StoreLoadRoundTrip(log);
    ReadExactly(Encode(log).0, log);
    assert log[0..] == log;
    EncodedLength(log, 0);
  }

  lemma SmallWord(n: nat)
    requires n < 0x1_0000
    ensures Word(n, 8) == [n % 256, n / 256, 0, 0, 0, 0, 0, 0]
  {
    assert Word(0, 2) == [0, 0];
    assert Word(0, 4) == [0, 0, 0, 0];
    assert Word(0, 6) == [0, 0, 0, 0, 0, 0];
  }

  /** The file of one piece of a byte at 440, byte by byte. */
  lemma OnePieceFile()
    ensures Encode([Saved(440, [7])]).0 ==
      [1, 0, 0, 0, 0, 0, 0, 0] + (([0xB8, 1, 0, 0, 0, 0, 0, 0] + [1, 0, 0, 0, 0, 0, 0, 0]) + [7])
  {
    SmallWord(1);
    SmallWord(440);
    var log := [Saved(440, [7])];
    EncodedFirst(log);
    assert EncodeAll(log[1..]).0 == [];
    assert EncodeSaved(log[0]) + [] == EncodeSaved(log[0]);
  }

  /** A log with one empty piece is not stored, and what is left of it is not loaded. */
  lemma EmptyPieceLost()
    ensures Encode([Saved(0, [])]).1 == false && Decode(Encode([Saved(0, [])]).0) == None
  {
    StoreLoadRoundTrip([Saved(0, [])]);
    assert [Saved(0, [])][0].data == [];
  }

  // ----- Storing and loading, piece by piece -----

  /** `store_uninstall_data`. */
  method StoreLog(log: seq<Saved>) returns (file: seq<Byte>, ok: bool)
    ensures (file, ok) == Encode(log)
    ensures ok <==> NoEmptyPiece(log)
    ensures ok && |log| <= LOG_MAX && (forall i :: 0 <= i < |log| ==> Storable(log[i])) ==>
      LaidOut(file, log) && |file| == PieceAt(log, |log|)
  {
    if NoEmptyPiece(log) && |log| <= LOG_MAX && forall i :: 0 <= i < |log| ==> Storable(log[i]) {
      StoredLaid(log);
    }
    file, ok := Word(|log|, 8), true;
    var i := 0;
    while i < |log|
      invariant 0 <= i <= |log| && file + EncodeAll(log[i..]).0 == Encode(log).0 && EncodeAll(log[i..]).1 == Encode(log).1
    {
      assert log[i..][1..] == log[i + 1..];
      var head := Word(log[i].loc, 8) + Word(|log[i].data|, 8);
      if |log[i].data| == 0 {
        return file + head, false;
      }
      AppendAssociates(file, head + log[i].data, EncodeAll(log[i + 1..]).0);
      file := file + (head + log[i].data);
      i := i + 1;
    }
    assert file + [] == file;
  }

  lemma AppendAssociates(a: seq<Byte>, b: seq<Byte>, c: seq<Byte>)
    ensures (a + b) + c == a + (b + c)
  {
  }

  ghost function Continued(log: seq<Saved>, rest: Option<seq<Saved>>): Option<seq<Saved>> {
    if rest.None? then None else Some(log + rest.value)
  }

  /** What is left of a file after `n` pieces, if it has so many. */
  function AfterPieces(file: seq<Byte>, n: nat): (r: Option<seq<Byte>>)
    decreases n
  {
    if n == 0 then Some(file)
    else
      match DecodeSaved(file)
      case None => None
      case Some((s, rest)) => AfterPieces(rest, n - 1)
  }

  /** The table of pieces is full, and the file goes on with one that it announced. */
  predicate Overfull(file: seq<Byte>) {
    && |file| >= 8 && Number(file[..8]) > LOG_MAX
    && var rest := AfterPieces(file[8..], LOG_MAX); rest.Some? && rest.value != []
  }

  lemma {:induction false} ShortOfPieces(file: seq<Byte>, n: nat, m: nat)
    requires m < n && (AfterPieces(file, m).None? || AfterPieces(file, m).value == [])
    ensures DecodeAll(file, n) == None
    decreases m
  {
    if m == 0 {
    } else if DecodeSaved(file).Some? {
      ShortOfPieces(DecodeSaved(file).value.1, n - 1, m - 1);
    }
  }

  /** The loading loop, the first `i` pieces having been read. */
  ghost predicate Loading(file: seq<Byte>, n: nat, i: nat, log: seq<Saved>, rest: seq<Byte>) {
    && i <= n && i <= LOG_MAX && DecodeAll(file, n) == Continued(log, DecodeAll(rest, n - i))
    && AfterPieces(file, LOG_MAX) == AfterPieces(rest, LOG_MAX - i)
  }

  lemma LoadedMore(file: seq<Byte>, n: nat, i: nat, log: seq<Saved>, rest: seq<Byte>)
    requires Loading(file, n, i, log, rest) && i < n && i < LOG_MAX
    ensures DecodeSaved(rest).None? ==> DecodeAll(file, n) == None && AfterPieces(file, LOG_MAX) == None
    ensures DecodeSaved(rest).Some? ==>
              Loading(file, n, i + 1, log + [DecodeSaved(rest).value.0], DecodeSaved(rest).value.1)
  {
    var piece := DecodeSaved(rest);
    if piece.Some? {
      var tail := DecodeAll(piece.value.1, n - i - 1);
      assert tail.Some? ==> (log + [piece.value.0]) + tail.value == log + ([piece.value.0] + tail.value);
    }
  }

  /**
   * `load_uninstall_data`. The pieces go to a table of 256, and the count in the file is not checked: a
   * file that goes on after 256 pieces is read past the end of the table, and only such a file.
   */
  method LoadLog(file: seq<Byte>) returns (r: Option<seq<Saved>>, overrun: bool)
    ensures overrun <==> Overfull(file)
    ensures !overrun ==> r == Decode(file)
    ensures !overrun ==> forall log :: r == Some(log) <==> LaidOut(file, log) && NoEmptyPiece(log)
  {
    forall log ensures Decode(file) == Some(log) <==> LaidOut(file, log) && NoEmptyPiece(log) {
      ReadExactly(file, log);
    }
    if |file| < 8 {
      return None, false;
    }
    var n := Number(file[..8]);
    var rest, log := file[8..], [];
    var i: nat := 0;
    assert DecodeAll(rest, n).Some? ==> [] + DecodeAll(rest, n).value == DecodeAll(rest, n).value;
    while i < n
      invariant Loading(file[8..], n, i, log, rest)
    {
      if i == LOG_MAX && rest != [] {
        return None, true;
      }
      if i == LOG_MAX {
        ShortOfPieces(file[8..], n, LOG_MAX);
        return None, false;
      }
      LoadedMore(file[8..], n, i, log, rest);
      var piece := DecodeSaved(rest);
      if piece.None? {
        return None, false;
      }
      log, rest := log + [piece.value.0], piece.value.1;
      i := i + 1;
    }
    assert log + [] == log;
    return Some(log), false;
  }

  /** The same piece `n` times over. */
  function Pieces(one: seq<Byte>, n: nat): (r: seq<Byte>)
    ensures n > 0 && one != [] ==> r != []
  {
    if n == 0 then [] else one + Pieces(one, n - 1)
  }

  lemma {:induction false} PiecesRead(one: seq<Byte>, piece: Saved, n: nat, m: nat)
    requires m <= n && forall rest :: DecodeSaved(one + rest) == Some((piece, rest))
    ensures AfterPieces(Pieces(one, n), m) == Some(Pieces(one, n - m))
    decreases m
  {
    if m == 0 {
    } else {
      var rest := Pieces(one, n - 1);
      assert DecodeSaved(one + rest) == Some((piece, rest));
      PiecesRead(one, piece, n - 1, m - 1);
    }
  }

  /** A well-formed file of 257 pieces of a byte each overruns the table. */
  lemma TooManyPieces()
    ensures Overfull(Word(257, 8) + Pieces(EncodeSaved(Saved(0, [7])), 257))
  {
    var one := EncodeSaved(Saved(0, [7]));
    var file := Word(LOG_MAX + 1, 8) + Pieces(one, LOG_MAX + 1);
    assert file[..8] == Word(LOG_MAX + 1, 8) && file[8..] == Pieces(one, LOG_MAX + 1);
    NumberOfWord(LOG_MAX + 1, 8);
    forall rest
      ensures DecodeSaved(one + rest) == Some((Saved(0, [7]), rest))
    {
      DecodeOneSaved(Saved(0, [7]), rest);
    }
    PiecesRead(one, Saved(0, [7]), LOG_MAX + 1, LOG_MAX);
  }

  // ----- From installing to uninstalling -----

  lemma ReflectedLog(log: seq<Saved>, requests: seq<Request>, n: nat)
    requires Reflects(log, WrittenSpans(requests)) && Fits(log, n) && n < Power256(8)
    requires forall q :: q in requests && q.WriteAt? ==> q.loc < Power256(8)
    ensures NoEmptyPiece(log) <==> NoEmptyWrite(requests)
    ensures forall i :: 0 <= i < |log| ==> Storable(log[i])
  {
    SpansNotEmpty(requests);
    SpansPlaced(requests);
    var spans := WrittenSpans(requests);
    forall i | 0 <= i < |log| ensures Storable(log[i]) {
      assert FitsOne(log[i], n) && spans[|log| - 1 - i].loc == log[i].loc;
      assert 0 < Power256(8);
    }
    forall i | 0 <= i < |spans| ensures spans[i].count == |log[|log| - 1 - i].data| {
      assert Span(log[|log| - 1 - i].loc, |log[|log| - 1 - i].data|) == spans[|log| - 1 - (|log| - 1 - i)];
    }
  }

  /** A stored log never has too many pieces. */
  lemma StoredFits(log: seq<Saved>)
    requires |log| <= LOG_MAX
    ensures !Overfull(Encode(log).0)
  {
    assert Encode(log).0[..8] == Word(|log|, 8);
    assert Power256(2) <= Power256(8);
    NumberOfWord(|log|, 8);
  }

  /**
   * Installing, storing the log in a file, and uninstalling on the reopened device from that file. An
   * installation that fails leaves the device as it was; one that succeeds is undone exactly when none of
   * its writes was empty, and otherwise stays.
   */
  method InstallThenUninstall(bytes: seq<Byte>, size: nat, requests: seq<Request>)
    returns (installed: bool, restored: bool, bytesAfter: seq<Byte>)
    requires 0 < size <= |bytes| < Power256(8)
    requires forall q :: q in requests && q.WriteAt? ==> q.loc < Power256(8)
    ensures installed <==> CanServeAll(requests, size, |bytes|)
    ensures !installed ==> bytesAfter == bytes
    ensures installed ==> Served(bytes, requests) && (restored <==> NoEmptyWrite(requests))
    ensures installed ==> bytesAfter == if restored then bytes else Outcome(bytes, requests)
  {
    var device := new Device(bytes, size);
    installed := device.Install(requests);
    restored, bytesAfter := false, device.disk;
    if !installed {
      return;
    }
    SpansFit(requests, size, |bytes|);
    ReflectedLog(device.log, requests, |bytes|);
    var file, stored := StoreLog(device.log);
    StoreLoadRoundTrip(device.log);
    StoredFits(device.log);
    var loaded, overrun := LoadLog(file);
    var again := new Device(device.disk, size);
    if loaded.Some? {
      again.log := loaded.value;
      again.Uninstall();
      restored := true;
    }
    bytesAfter := again.disk;
  }
}
