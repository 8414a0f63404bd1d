/**
 * The block driver of BLAKE2b: a 128-byte buffer, a 128-bit byte counter held in two words and the
 * last-block flag, against the block fold of section 3.3 of RFC 7693.
 *
 * The compression function is a parameter, so every statement holds whatever it computes. In
 * particular it may record its arguments, so an equation between folds says that the same
 * compressions are made in the same order on the same blocks, counters and flags.
 */
module Blake2b {
  import opened Basics

  type Word = n: nat | n < 0x1_0000_0000_0000_0000

  const BLOCK := 128
  const WORDS := 0x1_0000_0000_0000_0000
  const COUNTS := 0x1_0000_0000_0000_0000_0000_0000_0000_0000

  /** Chain value, block, low and high word of the counter, last-block word. */
  type Compression<!Chain> = (Chain, seq<Byte>, Word, Word, Word) -> Chain

  // ----- The fold of RFC 7693 -----

  /** One compression as the RFC lists it: the block, the bytes counted so far, and whether it is the last. */
  datatype Call = Call(block: seq<Byte>, count: nat, last: bool)

  function Apply<Chain>(f: Compression<Chain>, h: Chain, c: Call): Chain
    requires c.count < COUNTS
  {
    f(h, c.block, c.count % WORDS, c.count / WORDS, if c.last then WORDS - 1 else 0)
  }

  ghost predicate Countable(calls: seq<Call>) {
    forall i :: 0 <= i < |calls| ==> calls[i].count < COUNTS
  }

  function Fold<Chain>(f: Compression<Chain>, h: Chain, calls: seq<Call>): Chain
    requires Countable(calls)
  {
    if calls == [] then h else Apply(f, Fold(f, h, calls[..|calls| - 1]), calls[|calls| - 1])
  }

  predicate Whole(n: nat) {
    n == 0 || (n >= 128 && Whole(n - 128))
  }

  /** Where the last block of a message of `n` bytes starts. */
  function LastStart(n: nat): (at: nat)
    ensures Whole(at) && at <= n <= at + 128 && (n > 0 ==> at < n)
  {
    if n <= 128 then 0 else LastStart(n - 128) + 128
  }

  lemma {:induction false} LastStartUnique(n: nat, at: nat)
    requires Whole(at) && at < n <= at + 128
    ensures LastStart(n) == at
  {
    if at == 0 {
    } else {
      LastStartUnique(n - 128, at - 128);
    }
  }

  /** The block at `at` of the message filled up with zeros. */
  function Padded(m: seq<Byte>, at: nat): seq<Byte> {
    seq(BLOCK, j requires 0 <= j => if at + j < |m| then m[at + j] else 0)
  }

  /** The compressions of the whole blocks up to `at`, none of them the last. */
  function Leading(m: seq<Byte>, at: nat): (calls: seq<Call>)
    requires at <= |m| < COUNTS
    ensures Countable(calls)
    decreases at
  {
    if at < 128 then [] else Leading(m, at - 128) + [Call(Padded(m, at - 128), at, false)]
  }

  /** Every compression of the message: one for each block, at least one, the last one flagged. */
  function Calls(m: seq<Byte>): (calls: seq<Call>)
    requires |m| < COUNTS
    ensures Countable(calls)
  {
    Leading(m, LastStart(|m|)) + [Call(Padded(m, LastStart(|m|)), |m|, true)]
  }

  lemma {:induction false} LeadingAt(m: seq<Byte>, at: nat)
    requires at <= |m| < COUNTS && Whole(at)
    ensures 128 * |Leading(m, at)| == at
    ensures forall i :: 0 <= i < |Leading(m, at)| ==>
              Leading(m, at)[i] == Call(Padded(m, 128 * i), 128 * (i + 1), false)
    decreases at
  {
    if at == 0 {
    } else {
      LeadingAt(m, at - 128);
    }
  }

  /** How many compressions there are, and the RFC's description of compression `i`. */
  lemma CallsAt(m: seq<Byte>, i: nat)
    requires |m| < COUNTS
    ensures var dd := |Calls(m)|;
            dd >= 1 && 128 * (dd - 1) <= |m| <= 128 * dd && (dd > 1 ==> 128 * (dd - 1) < |m|)
    ensures var last := |Calls(m)| - 1;
            i <= last ==> Calls(m)[i] == Call(Padded(m, 128 * i), if i == last then |m| else 128 * (i + 1), i == last)
  {
    LeadingAt(m, LastStart(|m|));
  }

  /** More input does not change the compressions already made. */
  lemma {:induction false} LeadingPrefix(m: seq<Byte>, more: seq<Byte>, at: nat)
    requires at <= |m| && |m| + |more| < COUNTS
    ensures Leading(m + more, at) == Leading(m, at)
    decreases at
  {
    if at >= 128 {
      LeadingPrefix(m, more, at - 128);
      assert Padded(m + more, at - 128) == Padded(m, at - 128);
    }
  }

  // ----- Pieces of the message -----

  /** The input is what `total` holds from `before` on. */
  lemma Within(total: seq<Byte>, before: nat, input: seq<Byte>, from: nat, to: nat)
    requires before <= |total| && total[before..] == input && from <= to <= |input|
    ensures total[before + from..before + to] == input[from..to]
  {
    assert total[before..][from..to] == total[before + from..before + to];
  }

  lemma Straddles(m: seq<Byte>, input: seq<Byte>, at: nat, fill: nat)
    requires at <= |m| && fill <= |input|
    ensures (m + input)[at..|m| + fill] == m[at..] + input[..fill]
    ensures (m + input)[|m|..] == input
  {
  }

  // ----- The counter -----

  ghost function Count(t0: Word, t1: Word): nat {
    t0 + WORDS * t1
  }

  /** What the counter shows after `n` bytes, for `n` below twice its range. */
  ghost function Wrapped(n: nat): int {
    if n < COUNTS then n else n - COUNTS
  }

  lemma WrappedNext(n: nat)
    requires n + 128 < 2 * COUNTS
    ensures Wrapped(Wrapped(n) + 128) == Wrapped(n + 128)
  {
  }

  lemma Miscounted(n: nat, excess: nat)
    requires n < COUNTS && 0 < excess < COUNTS
    ensures Wrapped(n + excess) != n
  {
  }

  method IncrementCounter(t0: Word, t1: Word, inc: Word) returns (u0: Word, u1: Word)
    ensures Count(u0, u1) == Wrapped(Count(t0, t1) + inc)
  {
    u0 := (t0 + inc) % WORDS;
    u1 := (t1 + if u0 < inc then 1 else 0) % WORDS;
  }

  lemma WordsOf(t0: Word, t1: Word)
    ensures Count(t0, t1) < COUNTS && Count(t0, t1) % WORDS == t0 && Count(t0, t1) / WORDS == t1
  {
  }

  lemma FoldNext<Chain>(f: Compression<Chain>, h: Chain, m: seq<Byte>, at: nat, t0: Word, t1: Word)
    requires at + 128 <= |m| < COUNTS && Count(t0, t1) == at + 128
    ensures Fold(f, h, Leading(m, at + 128)) == f(Fold(f, h, Leading(m, at)), m[at..at + 128], t0, t1, 0)
  {
    WordsOf(t0, t1);
    assert m[at..at + 128] == Padded(m, at);
    assert Leading(m, at + 128)[..|Leading(m, at)|] == Leading(m, at);
  }

  lemma FoldLast<Chain>(f: Compression<Chain>, h: Chain, m: seq<Byte>, zeros: seq<Byte>, t0: Word, t1: Word)
    requires |m| < COUNTS && Count(t0, t1) == |m|
    requires |zeros| == LastStart(|m|) + 128 - |m| && forall i :: 0 <= i < |zeros| ==> zeros[i] == 0
    ensures Fold(f, h, Calls(m)) ==
            f(Fold(f, h, Leading(m, LastStart(|m|))), m[LastStart(|m|)..] + zeros, t0, t1, WORDS - 1)
  {
    WordsOf(t0, t1);
    var at := LastStart(|m|);
    assert m[at..] + zeros == Padded(m, at);
    assert Calls(m)[..|Leading(m, at)|] == Leading(m, at);
  }

  // ----- The state -----

  class Hasher<Chain> {
    const compress: Compression<Chain>
    const start: Chain
    var h: Chain
    var t0: Word
    var t1: Word
    var f0: Word
    const buf: array<Byte>
    var bufLen: nat

    /** The blocks of `m` up to `at` have been folded in. */
    ghost predicate Folded(m: seq<Byte>, at: nat)
      reads this
    {
      at <= |m| < COUNTS && Count(t0, t1) == at && h == Fold(compress, start, Leading(m, at)) && f0 == 0
    }

    /** The state stands for having been given exactly the bytes `m`. */
    ghost predicate Holds(m: seq<Byte>)
      reads this, buf
    {
      var at := LastStart(|m|);
      buf.Length == BLOCK && Folded(m, at) && bufLen == |m| - at && buf[..bufLen] == m[at..]
    }

    constructor (f: Compression<Chain>, initial: Chain)
      ensures Holds([]) && compress == f && start == initial && fresh(buf)
    {
      compress := f;
      start := initial;
      h := initial;
      t0, t1, f0 := 0, 0, 0;
      buf := new Byte[BLOCK](_ => 0);
      bufLen := 0;
    }

    /** Counts and compresses one block; when it is the next block of `m`, it is folded in. */
    method Advance(block: seq<Byte>, ghost m: seq<Byte>, ghost at: nat)
      modifies `h, `t0, `t1
      ensures Count(t0, t1) == Wrapped(old(Count(t0, t1)) + 128)
      ensures old(Folded(m, at)) && at + 128 <= |m| && block == m[at..at + 128] ==> Folded(m, at + 128)
    {
      t0, t1 := IncrementCounter(t0, t1, BLOCK);
      h := compress(h, block, t0, t1, f0);
      if old(Folded(m, at)) && at + 128 <= |m| {
        FoldNext(compress, start, m, at, t0, t1);
      }
    }

    /** Copies `piece` to the buffer at `at`. */
    method Copy(at: nat, piece: seq<Byte>)
      requires at + |piece| <= buf.Length
      modifies buf
      ensures buf[..at + |piece|] == old(buf[..at]) + piece
    {
      for i := 0 to |piece|
        invariant buf[..at + i] == old(buf[..at]) + piece[..i]
      {
        buf[at + i] := piece[i];
      }
    }

    /**
     * `blake2b_update`. It takes in the whole input exactly when the buffer was empty, or the input
     * ends within one block of the point where the buffer fills up: past that point its loop goes on
     * by what was free in the buffer, not by a block. With a full buffer and more than a block of
     * input the loop never ends (see `LoopEnds`), so that call is not allowed.
     */
    method Update(input: seq<Byte>, ghost m: seq<Byte>)
      requires Holds(m) && |input| < WORDS && |m| + |input| < COUNTS
      requires bufLen < BLOCK || |input| <= BLOCK
      modifies this, buf
      ensures Holds(m + input) <==> old(bufLen) == 0 || |input| <= 2 * BLOCK - old(bufLen)
    {
      if |input| == 0 {
        assert m + input == m;
        return;
      }
      ghost var at := LastStart(|m|);
      LeadingPrefix(m, input, at);
      assert Folded(m + input, at);
      Absorb(input, m, m + input, at);
    }

    /** The body of `blake2b_update` for an input that is not empty. */
    method Absorb(input: seq<Byte>, ghost m: seq<Byte>, ghost total: seq<Byte>, ghost at: nat)
      requires 0 < |input| < WORDS && (bufLen < BLOCK || |input| <= BLOCK) && total == m + input
      requires buf.Length == BLOCK && Whole(at) && |m| == at + bufLen && bufLen <= BLOCK && buf[..bufLen] == m[at..]
      requires Folded(total, at)
      modifies this, buf
      ensures Holds(total) <==> old(bufLen) == 0 || |input| <= 2 * BLOCK - old(bufLen)
    {
      var left := bufLen;
      var fill := BLOCK - left;
      if |input| > fill {
        Straddles(m, input, at, fill);
        bufLen := 0;
        FillBlock(input[..fill], m[at..], total, at);
        Rest(input, |m|, total, left, fill);
      } else {
        Straddles(m, input, at, |input|);
        assert input[..|input|] == input && total[at..|total|] == total[at..];
        Append(input, m[at..], total, at);
      }
    }

    /** The input fits in the buffer. */
    method Append(input: seq<Byte>, ghost held: seq<Byte>, ghost total: seq<Byte>, ghost at: nat)
      requires 0 < |held| + |input| <= BLOCK == buf.Length && bufLen == |held| && buf[..bufLen] == held
      requires Whole(at) && Folded(total, at) && total[at..] == held + input
      modifies `bufLen, buf
      ensures Holds(total)
    {
      Copy(bufLen, input);
      bufLen := bufLen + |input|;
      Ended(total, at);
    }

    /** What follows once the buffer has been filled up and compressed. */
    method Rest(input: seq<Byte>, ghost before: nat, ghost total: seq<Byte>, left: nat, fill: nat)
      requires |input| < WORDS && before + |input| == |total| < COUNTS && total[before..] == input
      requires left + fill == BLOCK && fill < |input| && (fill > 0 || |input| <= BLOCK)
      requires Whole(before + fill) && Folded(total, before + fill)
      requires buf.Length == BLOCK && bufLen == 0
      modifies this, buf
      ensures Holds(total) <==> left == 0 || |input| <= fill + BLOCK
    {
      var pos, rest := Rounds(input, before, total, left, fill);
      Keep(input, pos, rest, total, before);
    }

    /** Completes the block in the buffer with `piece` and folds it in. */
    method FillBlock(piece: seq<Byte>, ghost held: seq<Byte>, ghost total: seq<Byte>, ghost at: nat)
      requires buf.Length == BLOCK && |held| + |piece| == BLOCK && buf[..|held|] == held
      requires at + BLOCK <= |total| && total[at..at + BLOCK] == held + piece && Folded(total, at)
      modifies `h, `t0, `t1, buf
      ensures Folded(total, at + BLOCK)
    {
      Copy(BLOCK - |piece|, piece);
      assert buf[..BLOCK] == held + piece;
      Advance(buf[..BLOCK], total, at);
    }

    /** What is left of the input goes to the start of the buffer. */
    method Keep(input: seq<Byte>, pos: nat, rest: nat, ghost total: seq<Byte>, ghost before: nat)
      requires buf.Length == BLOCK && before + |input| == |total| < COUNTS && total[before..] == input
      requires pos + rest == |input| && 0 < rest <= BLOCK && bufLen == 0
      modifies `bufLen, buf
      ensures Holds(total) ==> Count(t0, t1) == before + pos
      ensures Whole(before + pos) && old(Folded(total, before + pos)) ==> Holds(total)
    {
      assert total[before + pos..] == total[before..][pos..];
      Copy(bufLen, input[pos..]);
      bufLen := bufLen + rest;
      assert buf[..bufLen] == [] + input[pos..] == input[pos..];
      Ended(total, before + pos);
    }

    /** With the bytes from `at` on in the buffer, all of `m` is taken in exactly when what came before is. */
    lemma Ended(m: seq<Byte>, at: nat)
      requires at < |m| < COUNTS && bufLen == |m| - at <= BLOCK == buf.Length && buf[..bufLen] == m[at..]
      ensures Holds(m) ==> Count(t0, t1) == at
      ensures Whole(at) && Folded(m, at) ==> Holds(m)
    {
      if Whole(at) {
        LastStartUnique(|m|, at);
      }
    }

    /** How far the count is ahead of what was used up: by what was in the buffer, for each round. */
    static ghost predicate Off(excess: nat, pos: nat, left: nat, fill: nat) {
      && pos >= fill && excess <= 128 * (pos - fill) && (left == 0 ==> excess == 0)
      && (pos > fill && left > 0 ==> excess > 0)
    }

    static lemma RoundNext(at: nat, excess: nat, pos: nat, left: nat, fill: nat)
      requires Off(excess, pos, left, fill) && left + fill == BLOCK && fill > 0 && at < COUNTS && pos < WORDS
      ensures Off(excess + left, pos + fill, left, fill) && at + excess + BLOCK < 2 * COUNTS
    {
    }

    /** The blocks up to `at`, where one ends, have been folded in. */
    ghost predicate Reached(m: seq<Byte>, at: nat)
      reads this
    {
      Whole(at) && Folded(m, at)
    }

    method Round(input: seq<Byte>, ghost before: nat, ghost total: seq<Byte>, pos: nat, ghost excess: nat, ghost to: nat)
      requires before + |input| == |total| && total[before..] == input && pos + BLOCK <= |input|
      requires before + pos + excess + BLOCK < 2 * COUNTS && Count(t0, t1) == Wrapped(before + pos + excess)
      modifies `h, `t0, `t1
      ensures Count(t0, t1) == Wrapped(before + pos + excess + BLOCK)
      ensures to == before + pos + BLOCK && old(Reached(total, before + pos)) ==> Reached(total, to)
    {
      Within(total, before, input, pos, pos + BLOCK);
      WrappedNext(before + pos + excess);
      Advance(input[pos..pos + BLOCK], total, before + pos);
    }

    /**
     * The loop of `blake2b_update`, entered with `fill` bytes of the input used up. Each round counts
     * a block but goes on by `fill`, so only an empty buffer or no round at all keeps the count right.
     */
    method Rounds(input: seq<Byte>, ghost before: nat, ghost total: seq<Byte>, left: nat, fill: nat)
      returns (pos: nat, rest: nat)
      requires |input| < WORDS && before + |input| == |total| < COUNTS && total[before..] == input
      requires left + fill == BLOCK && fill < |input| && (fill > 0 || |input| <= BLOCK)
      requires Whole(before + fill) && Folded(total, before + fill)
      modifies `h, `t0, `t1
      ensures pos + rest == |input| && 0 < rest <= BLOCK
      ensures left == 0 || |input| <= fill + BLOCK ==> Whole(before + pos) && Folded(total, before + pos)
      ensures left > 0 && |input| > fill + BLOCK ==> Count(t0, t1) != before + pos
    {
      ghost var excess: nat, at: nat := 0, before + fill;
      pos, rest := fill, |input| - fill;
      while rest > BLOCK
        invariant fill <= pos && pos + rest == |input| && rest > 0 && at == before + pos && Off(excess, pos, left, fill)
        invariant Count(t0, t1) == Wrapped(at + excess)
        invariant pos > fill ==> |input| > fill + BLOCK
        invariant left == 0 || pos == fill ==> Reached(total, at)
      {
        RoundNext(at, excess, pos, left, fill);
        Round(input, before, total, pos, excess, at + fill);
        pos, rest, excess, at := pos + fill, rest - fill, excess + left, at + fill;
      }
      if excess > 0 {
        Miscounted(before + pos, excess);
      }
    }

    /** `blake2b_final`: the last compression, flagged, on the buffer filled up with zeros. */
    method Final(ghost m: seq<Byte>) returns (digest: Chain)
      requires Holds(m)
      modifies this, buf
      ensures digest == Fold(compress, start, Calls(m))
    {
      t0, t1 := IncrementCounter(t0, t1, bufLen);
      f0 := WORDS - 1;
      var zeros: seq<Byte> := seq(BLOCK - bufLen, _ => 0);
      Copy(bufLen, zeros);
      FoldLast(compress, start, m, zeros, t0, t1);
      h := compress(h, buf[..BLOCK], t0, t1, f0);
      digest := h;
    }
  }

  /** `blake2b`: for every input that fits in memory, the fold of RFC 7693. */
  method Hash<Chain>(f: Compression<Chain>, initial: Chain, input: seq<Byte>) returns (digest: Chain)
    requires |input| < WORDS
    ensures digest == Fold(f, initial, Calls(input))
  {
    var state := new Hasher(f, initial);
    state.Update(input, []);
    assert [] + input == input;
    digest := state.Final(input);
  }

  /** Splitting a message over two updates can lose it: one byte, then 256 more. */
  method SplitMessage<Chain>(f: Compression<Chain>, initial: Chain) returns (state: Hasher<Chain>)
    ensures fresh(state) && !state.Holds([0] + seq(256, _ => 0))
  {
    state := new Hasher(f, initial);
    var first, second: seq<Byte> := [0], seq(256, _ => 0);
    state.Update(first, []);
    assert [] + first == first;
    state.Update(second, first);
  }

  // ----- Whether the loop ends -----

  /** What is left of the input after `n` rounds of the loop. */
  function RestAfter(rest: int, fill: nat, n: nat): int {
    if n == 0 || rest <= BLOCK then rest else RestAfter(rest - fill, fill, n - 1)
  }

  /** The loop ends exactly when it is not entered or the buffer was not full. */
  lemma {:induction false} LoopEnds(rest: int, fill: nat)
    ensures (exists n: nat :: RestAfter(rest, fill, n) <= BLOCK) <==> rest <= BLOCK || fill > 0
    decreases rest
  {
    if rest <= BLOCK {
      assert RestAfter(rest, fill, 0) <= BLOCK;
    } else if fill > 0 {
      LoopEnds(rest - fill, fill);
      var n: nat :| RestAfter(rest - fill, fill, n) <= BLOCK;
      assert RestAfter(rest, fill, n + 1) <= BLOCK;
    } else {
      forall n: nat ensures RestAfter(rest, 0, n) == rest {
        Stuck(rest, n);
      }
    }
  }

  lemma {:induction false} Stuck(rest: int, n: nat)
    ensures RestAfter(rest, 0, n) == rest
  {
    if n > 0 && rest > BLOCK {
      Stuck(rest, n - 1);
    }
  }
}
