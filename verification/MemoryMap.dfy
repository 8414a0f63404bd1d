/** The bootloader's physical memory map: a list of typed address ranges that is carved,
    trimmed, sorted and merged in place, and the allocators above it.

    The meaning of a list is which types it gives to each address (`Has`). */
module MemoryMap {
  import opened Basics
  import opened Arith

  const USABLE := 1
  const BOOTLOADER_RECLAIMABLE := 0x1000
  const KERNEL_AND_MODULES := 0x1001
  const EFI_RECLAIMABLE := 0x2000

  const PAGE := 0x1000
  const FOUR_GIB := 0x1_0000_0000

  datatype Entry = Entry(base: nat, length: nat, kind: nat)

  function Top(e: Entry): nat { e.base + e.length }

  predicate Covers(e: Entry, a: nat) { e.base <= a < Top(e) }

  /** The map `m` gives type `k` to address `a`. */
  ghost predicate Has(m: seq<Entry>, a: nat, k: nat)
  {
    exists i :: 0 <= i < |m| && Covers(m[i], a) && m[i].kind == k
  }

  ghost predicate SameMap(m0: seq<Entry>, m1: seq<Entry>)
  {
    forall a: nat, k: nat :: Has(m1, a, k) <==> Has(m0, a, k)
  }

  predicate Apart(e: Entry, f: Entry) { Top(e) <= f.base || Top(f) <= e.base }

  ghost predicate AllApart(m: seq<Entry>)
  {
    forall i, j :: 0 <= i < j < |m| ==> Apart(m[i], m[j])
  }

  ghost predicate NoneEmpty(m: seq<Entry>)
  {
    forall i :: 0 <= i < |m| ==> m[i].length > 0
  }

  /** No address is covered twice, and no entry is empty. */
  ghost predicate Disjoint(m: seq<Entry>)
  {
    NoneEmpty(m) && AllApart(m)
  }

  /** `m` without entry `i`, whose place the last entry takes. */
  function SwapRemove(m: seq<Entry>, i: nat): seq<Entry>
    requires i < |m|
  {
    if i < |m| - 1 then m[i := m[|m| - 1]][..|m| - 1] else m[..|m| - 1]
  }

  lemma SwapRemoveHas(m: seq<Entry>, i: nat, a: nat, k: nat)
    requires i < |m|
    ensures Has(SwapRemove(m, i), a, k) <==> exists j :: 0 <= j < |m| && j != i && Covers(m[j], a) && m[j].kind == k
  {
    var r := SwapRemove(m, i);
    if Has(r, a, k) {
      var j :| 0 <= j < |r| && Covers(r[j], a) && r[j].kind == k;
      if j == i {
        assert Covers(m[|m| - 1], a) && m[|m| - 1].kind == k;
      } else {
        assert Covers(m[j], a) && m[j].kind == k;
      }
    }
    if exists j :: 0 <= j < |m| && j != i && Covers(m[j], a) && m[j].kind == k {
      var j :| 0 <= j < |m| && j != i && Covers(m[j], a) && m[j].kind == k;
      if j == |m| - 1 {
        assert r[i] == m[j];
      } else {
        assert r[j] == m[j];
      }
    }
  }

  lemma SwapRemoveApart(m: seq<Entry>, i: nat)
    requires i < |m| && AllApart(m)
    ensures AllApart(SwapRemove(m, i))
  {
    var r := SwapRemove(m, i);
    var last := |m| - 1;
    forall p, q | 0 <= p < q < |r| ensures Apart(r[p], r[q]) {
      var p', q' := if p == i then last else p, if q == i then last else q;
      if p' < q' { assert Apart(m[p'], m[q']); } else { assert Apart(m[q'], m[p']); }
    }
  }

  /** The range [base, top) is carved out and given the type `kind`; the rest of the map stays. */
  ghost predicate Carved(m0: seq<Entry>, m1: seq<Entry>, base: nat, top: nat, kind: nat)
  {
    forall a: nat, k: nat :: Has(m1, a, k) <==> if base <= a < top then k == kind else Has(m0, a, k)
  }

  /** Outside [base, top) the two maps say the same. */
  ghost predicate SameOutside(m0: seq<Entry>, m1: seq<Entry>, base: nat, top: nat)
  {
    forall a: nat, k: nat :: !(base <= a < top) ==> (Has(m1, a, k) <==> Has(m0, a, k))
  }

  predicate Clear(e: Entry, base: nat, top: nat) { Top(e) <= base || top <= e.base || e.length == 0 }

  /** The part of `e` below the range and the part above it. */
  function Below(e: Entry, base: nat): Entry
    requires e.base <= base
  {
    e.(length := base - e.base)
  }

  function Above(e: Entry, top: nat): Entry
    requires top <= Top(e)
  {
    Entry(top, Top(e) - top, e.kind)
  }

  /** Replacing entry `i` by one that covers the same addresses outside the range. */
  lemma ReplaceOutside(m: seq<Entry>, i: nat, e: Entry, base: nat, top: nat)
    requires i < |m| && e.kind == m[i].kind
    requires forall a: nat :: !(base <= a < top) ==> (Covers(e, a) <==> Covers(m[i], a))
    ensures SameOutside(m, m[i := e], base, top)
  {
    forall a: nat, k: nat | !(base <= a < top) ensures Has(m[i := e], a, k) <==> Has(m, a, k) {
      if Has(m, a, k) {
        var j :| 0 <= j < |m| && Covers(m[j], a) && m[j].kind == k;
        assert Covers(m[i := e][j], a) && m[i := e][j].kind == k;
      }
      if Has(m[i := e], a, k) {
        var j :| 0 <= j < |m| && Covers(m[i := e][j], a) && m[i := e][j].kind == k;
        assert Covers(m[j], a) && m[j].kind == k;
      }
    }
  }

  lemma RemoveOutside(m: seq<Entry>, i: nat, base: nat, top: nat)
    requires i < |m| && base <= m[i].base && Top(m[i]) <= top
    ensures SameOutside(m, SwapRemove(m, i), base, top)
  {
    forall a: nat, k: nat | !(base <= a < top) ensures Has(SwapRemove(m, i), a, k) <==> Has(m, a, k) {
      SwapRemoveHas(m, i, a, k);
    }
  }

  lemma AppendHas(m: seq<Entry>, e: Entry, a: nat, k: nat)
    ensures Has(m + [e], a, k) <==> Has(m, a, k) || (Covers(e, a) && e.kind == k)
  {
    var r := m + [e];
    if Has(m, a, k) {
      var j :| 0 <= j < |m| && Covers(m[j], a) && m[j].kind == k;
      assert r[j] == m[j];
    }
    if Covers(e, a) && e.kind == k {
      assert r[|m|] == e;
    }
    if Has(r, a, k) {
      var j :| 0 <= j < |r| && Covers(r[j], a) && r[j].kind == k;
      if j < |m| {
        assert m[j] == r[j];
      }
    }
  }

  /** Cutting entry `i` in two around the range. */
  lemma NestedOutside(m: seq<Entry>, i: nat, base: nat, top: nat)
    requires i < |m| && m[i].base < base <= top < Top(m[i])
    ensures SameOutside(m, m[i := Below(m[i], base)] + [Above(m[i], top)], base, top)
  {
    var lower := m[i := Below(m[i], base)];
    forall a: nat, k: nat | !(base <= a < top) ensures Has(lower + [Above(m[i], top)], a, k) <==> Has(m, a, k) {
      AppendHas(lower, Above(m[i], top), a, k);
      if Has(m, a, k) {
        var j :| 0 <= j < |m| && Covers(m[j], a) && m[j].kind == k;
        if j != i || a < base {
          assert Covers(lower[j], a) && lower[j].kind == k;
        }
      }
      if Has(lower, a, k) {
        var j :| 0 <= j < |m| && Covers(lower[j], a) && lower[j].kind == k;
        assert Covers(m[j], a) && m[j].kind == k;
      }
      if Covers(Above(m[i], top), a) && m[i].kind == k {
        assert Covers(m[i], a);
      }
    }
  }

  lemma SameOutsideTrans(m0: seq<Entry>, m1: seq<Entry>, m2: seq<Entry>, base: nat, top: nat)
    requires SameOutside(m0, m1, base, top) && SameOutside(m1, m2, base, top)
    ensures SameOutside(m0, m2, base, top)
  {
  }

  /** Entries that only shrink, or grow by pieces of themselves, stay disjoint. */
  lemma ShrinkDisjoint(m: seq<Entry>, i: nat, e: Entry)
    requires i < |m| && Disjoint(m) && e.length > 0 && m[i].base <= e.base && Top(e) <= Top(m[i])
    ensures Disjoint(m[i := e])
  {
    var r := m[i := e];
    forall p, q | 0 <= p < q < |r| ensures Apart(r[p], r[q]) {
      assert Apart(m[p], m[q]);
    }
  }

  lemma NestedDisjoint(m: seq<Entry>, i: nat, base: nat, top: nat)
    requires i < |m| && Disjoint(m) && m[i].base < base <= top < Top(m[i])
    ensures Disjoint(m[i := Below(m[i], base)] + [Above(m[i], top)])
  {
    ShrinkDisjoint(m, i, Below(m[i], base));
    var r := m[i := Below(m[i], base)] + [Above(m[i], top)];
    forall p, q | 0 <= p < q < |r| ensures Apart(r[p], r[q]) {
      if q == |m| {
        if p != i {
          if p < i { assert Apart(m[p], m[i]); } else { assert Apart(m[i], m[p]); }
        }
      } else {
        assert Apart(m[i := Below(m[i], base)][p], m[i := Below(m[i], base)][q]);
      }
    }
  }

  lemma AppendDisjoint(m: seq<Entry>, e: Entry)
    requires Disjoint(m) && e.length > 0 && forall i :: 0 <= i < |m| ==> Apart(m[i], e)
    ensures Disjoint(m + [e])
  {
    var r := m + [e];
    forall p, q | 0 <= p < q < |r| ensures Apart(r[p], r[q]) {
      if q < |m| {
        assert Apart(m[p], m[q]);
      }
    }
  }

  /** What the carving loop keeps while it goes through the list from entry `i` on; the last `extra`
      entries were appended by the loop itself. */
  ghost predicate Carving(m0: seq<Entry>, m: seq<Entry>, base: nat, top: nat, i: nat, extra: nat)
  {
    && i + extra <= |m|
    && SameOutside(m0, m, base, top)
    && (Disjoint(m0) ==> Disjoint(m) && AtMostOneCut(m0, m, base, top))
    && (forall j :: 0 <= j < i ==> Clear(m[j], base, top))
    && (forall j :: |m| - extra <= j < |m| ==> Clear(m[j], base, top))
  }

  /** In a disjoint map at most one entry is cut in two; then nothing else touches the range. */
  ghost predicate AtMostOneCut(m0: seq<Entry>, m: seq<Entry>, base: nat, top: nat)
  {
    |m| <= |m0| || (|m| == |m0| + 1 && forall j :: 0 <= j < |m| ==> Clear(m[j], base, top))
  }

  lemma OneCut(m: seq<Entry>, i: nat, base: nat, top: nat)
    requires Disjoint(m) && i < |m| && m[i].base < base < top < Top(m[i])
    ensures forall j :: 0 <= j < |m| && j != i ==> Clear(m[j], base, top)
  {
    forall j | 0 <= j < |m| && j != i ensures Clear(m[j], base, top) {
      if j < i { assert Apart(m[j], m[i]); } else if j > i { assert Apart(m[i], m[j]); }
    }
  }

  /** Once every entry is clear of the range, appending the new entry completes the carving. */
  lemma CarveDone(m0: seq<Entry>, m: seq<Entry>, base: nat, top: nat, kind: nat, extra: nat)
    requires Carving(m0, m, base, top, |m|, extra) && base < top
    ensures Carved(m0, m + [Entry(base, top - base, kind)], base, top, kind)
    ensures Disjoint(m0) ==> Disjoint(m + [Entry(base, top - base, kind)]) && |m| <= |m0| + 1
  {
    var e := Entry(base, top - base, kind);
    forall a: nat, k: nat ensures Has(m + [e], a, k) <==> if base <= a < top then k == kind else Has(m0, a, k) {
      AppendHas(m, e, a, k);
    }
    if Disjoint(m0) {
      AppendDisjoint(m, e);
    }
  }

  lemma CarveRemove(m0: seq<Entry>, m: seq<Entry>, base: nat, top: nat, i: nat, extra: nat)
    requires Carving(m0, m, base, top, i, extra) && i < |m|
    requires base <= m[i].base && Top(m[i]) <= top
    ensures Carving(m0, SwapRemove(m, i), base, top, i, if extra > 0 then extra - 1 else 0)
  {
    RemoveOutside(m, i, base, top);
    SameOutsideTrans(m0, m, SwapRemove(m, i), base, top);
    if Disjoint(m0) {
      SwapRemoveApart(m, i);
    }
  }

  lemma CarveShrink(m0: seq<Entry>, m: seq<Entry>, base: nat, top: nat, i: nat, extra: nat, e: Entry)
    requires Carving(m0, m, base, top, i, extra) && i + extra < |m| && Clear(e, base, top) && e.kind == m[i].kind
    requires forall a: nat :: !(base <= a < top) ==> (Covers(e, a) <==> Covers(m[i], a))
    requires e.length > 0 && m[i].base <= e.base && Top(e) <= Top(m[i]) && !Clear(m[i], base, top)
    ensures Carving(m0, m[i := e], base, top, i + 1, extra)
  {
    ReplaceOutside(m, i, e, base, top);
    SameOutsideTrans(m0, m, m[i := e], base, top);
    if Disjoint(m0) {
      ShrinkDisjoint(m, i, e);
    }
  }

  lemma CarveNested(m0: seq<Entry>, m: seq<Entry>, base: nat, top: nat, i: nat, extra: nat)
    requires Carving(m0, m, base, top, i, extra) && i + extra < |m|
    requires m[i].base < base < top < Top(m[i])
    ensures Disjoint(m0) ==> |m| <= |m0|
    ensures Carving(m0, m[i := Below(m[i], base)] + [Above(m[i], top)], base, top, i + 1, extra + 1)
  {
    NestedOutside(m, i, base, top);
    SameOutsideTrans(m0, m, m[i := Below(m[i], base)] + [Above(m[i], top)], base, top);
    if Disjoint(m0) {
      NestedDisjoint(m, i, base, top);
      OneCut(m, i, base, top);
    }
  }

  /** After removing the first page: usable addresses below it are gone, everything else stays. */
  ghost predicate FirstPageDropped(m0: seq<Entry>, m1: seq<Entry>, keep: bool)
  {
    forall a: nat, k: nat :: Has(m1, a, k) <==> Has(m0, a, k) && (keep || k != USABLE || a >= PAGE)
  }

  /** While dropping: entries before `i` are done. */
  ghost predicate Dropping(m0: seq<Entry>, m: seq<Entry>, keep: bool, i: nat)
  {
    && i <= |m|
    && (forall a: nat, k: nat :: keep || k != USABLE || a >= PAGE ==> (Has(m, a, k) <==> Has(m0, a, k)))
    && (forall a: nat, k: nat :: Has(m, a, k) ==> Has(m0, a, k))
    && (AllApart(m0) ==> AllApart(m))
    && (forall j :: 0 <= j < i && m[j].kind == USABLE ==> m[j].length > 0 && (keep || m[j].base >= PAGE))
    && (forall j :: 0 <= j < |m| && m[j].kind != USABLE ==> m[j] in m0)
  }

  lemma DropRemove(m0: seq<Entry>, m: seq<Entry>, keep: bool, i: nat)
    requires Dropping(m0, m, keep, i) && i < |m| && m[i].kind == USABLE
    requires m[i].length == 0 || (!keep && Top(m[i]) <= PAGE)
    ensures Dropping(m0, SwapRemove(m, i), keep, i)
  {
    var r := SwapRemove(m, i);
    forall a: nat, k: nat ensures Has(r, a, k) ==> Has(m, a, k)
      ensures (keep || k != USABLE || a >= PAGE) && Has(m, a, k) ==> Has(r, a, k)
    {
      SwapRemoveHas(m, i, a, k);
    }
    if AllApart(m0) {
      SwapRemoveApart(m, i);
    }
  }

  lemma DropShave(m0: seq<Entry>, m: seq<Entry>, keep: bool, i: nat)
    requires Dropping(m0, m, keep, i) && i < |m| && m[i].kind == USABLE
    requires !keep && m[i].base < PAGE < Top(m[i])
    ensures Dropping(m0, m[i := Entry(PAGE, Top(m[i]) - PAGE, USABLE)], keep, i + 1)
  {
    var e := Entry(PAGE, Top(m[i]) - PAGE, USABLE);
    ReplaceOutside(m, i, e, 0, PAGE);
    var r := m[i := e];
    forall a: nat, k: nat ensures Has(r, a, k) ==> Has(m, a, k)
      ensures (k != USABLE || a >= PAGE) && Has(m, a, k) ==> Has(r, a, k)
    {
      if Has(r, a, k) {
        var j :| 0 <= j < |r| && Covers(r[j], a) && r[j].kind == k;
        assert Covers(m[j], a) && m[j].kind == k;
      }
      if (k != USABLE || a >= PAGE) && Has(m, a, k) {
        var j :| 0 <= j < |m| && Covers(m[j], a) && m[j].kind == k;
        assert Covers(r[j], a) && r[j].kind == k;
      }
    }
    forall p, q | AllApart(m0) && 0 <= p < q < |r| ensures Apart(r[p], r[q]) {
      assert Apart(m[p], m[q]);
    }
  }

  lemma DropDone(m0: seq<Entry>, m: seq<Entry>, keep: bool)
    requires Dropping(m0, m, keep, |m|)
    ensures FirstPageDropped(m0, m, keep)
  {
    forall a: nat, k: nat ensures Has(m, a, k) <==> Has(m0, a, k) && (keep || k != USABLE || a >= PAGE) {
      if Has(m, a, k) {
        var j :| 0 <= j < |m| && Covers(m[j], a) && m[j].kind == k;
      }
    }
  }

  ghost predicate Sorted(m: seq<Entry>)
  {
    forall i, j :: 0 <= i < j < |m| ==> m[i].base <= m[j].base
  }

  function Swap(m: seq<Entry>, p: nat, q: nat): seq<Entry>
    requires p < |m| && q < |m|
  {
    m[q := m[p]][p := m[q]]
  }

  lemma SwapSame(m: seq<Entry>, p: nat, q: nat)
    requires p < |m| && q < |m|
    ensures SameMap(m, Swap(m, p, q))
    ensures NoneEmpty(m) ==> NoneEmpty(Swap(m, p, q))
    ensures AllApart(m) ==> AllApart(Swap(m, p, q))
  {
    var r := Swap(m, p, q);
    forall a: nat, k: nat ensures Has(r, a, k) <==> Has(m, a, k) {
      if Has(m, a, k) {
        var j :| 0 <= j < |m| && Covers(m[j], a) && m[j].kind == k;
        var j' := if j == p then q else if j == q then p else j;
        assert r[j'] == m[j];
      }
      if Has(r, a, k) {
        var j :| 0 <= j < |r| && Covers(r[j], a) && r[j].kind == k;
        var j' := if j == p then q else if j == q then p else j;
        assert m[j'] == r[j];
      }
    }
    if AllApart(m) {
      forall x, y | 0 <= x < y < |r| ensures Apart(r[x], r[y]) {
        var x' := if x == p then q else if x == q then p else x;
        var y' := if y == p then q else if y == q then p else y;
        if x' < y' { assert Apart(m[x'], m[y']); } else { assert Apart(m[y'], m[x']); }
      }
    }
  }

  /** Only these two types are merged. */
  predicate Merges(k: nat) { k == BOOTLOADER_RECLAIMABLE || k == USABLE }

  predicate Mergeable(e: Entry, f: Entry)
  {
    Merges(e.kind) && f.kind == e.kind && f.base == Top(e)
  }

  ghost predicate NothingToMerge(m: seq<Entry>)
  {
    forall i :: 0 <= i < |m| - 1 ==> !Mergeable(m[i], m[i + 1])
  }

  function MergeAt(m: seq<Entry>, i: nat): seq<Entry>
    requires i + 1 < |m|
  {
    m[..i] + [m[i].(length := m[i].length + m[i + 1].length)] + m[i + 2..]
  }

  lemma MergeSame(m: seq<Entry>, i: nat)
    requires i + 1 < |m| && Mergeable(m[i], m[i + 1])
    ensures SameMap(m, MergeAt(m, i))
  {
    var r := MergeAt(m, i);
    forall a: nat, k: nat ensures Has(r, a, k) <==> Has(m, a, k) {
      if Has(m, a, k) {
        var j :| 0 <= j < |m| && Covers(m[j], a) && m[j].kind == k;
        var j' := if j <= i then j else j - 1;
        assert Covers(r[j'], a) && r[j'].kind == k;
      }
      if Has(r, a, k) {
        var j :| 0 <= j < |r| && Covers(r[j], a) && r[j].kind == k;
        var j' := if j < i || (j == i && a < Top(m[i])) then j else j + 1;
        assert Covers(m[j'], a) && m[j'].kind == k;
      }
    }
  }

  lemma MergeKeeps(m: seq<Entry>, i: nat)
    requires i + 1 < |m| && Mergeable(m[i], m[i + 1]) && Disjoint(m) && Sorted(m)
    ensures Disjoint(MergeAt(m, i)) && Sorted(MergeAt(m, i))
  {
    var r := MergeAt(m, i);
    forall x, y | 0 <= x < y < |r| ensures Apart(r[x], r[y]) && r[x].base <= r[y].base {
      var x', y' := if x <= i then x else x + 1, if y <= i then y else y + 1;
      assert Apart(m[x'], m[y']) && m[x'].base <= m[y'].base;
      if x == i {
        assert Apart(m[i + 1], m[y']) && m[i + 1].base <= m[y'].base;
      }
      if y == i {
        assert Apart(m[x'], m[i + 1]) && m[x'].base <= m[i + 1].base;
      }
    }
  }

  function AlignUp(x: nat, a: nat): nat
    requires a > 0
  {
    (x + (a - 1)) / a * a
  }

  function AlignDown(x: nat, a: nat): nat
    requires a > 0
  {
    x / a * a
  }

  /** What page alignment leaves of an entry: the whole pages of usable memory. */
  function Trim(e: Entry, align: bool): Entry
  {
    if !align || e.kind != USABLE then e
    else if e.length < PAGE then Entry(e.base, 0, e.kind)
    else
      var base := AlignUp(e.base, PAGE);
      Entry(base, AlignDown(e.length - (base - e.base), PAGE), e.kind)
  }

  /** Trimming keeps an entry inside itself, and leaves exactly its whole pages. */
  lemma TrimInside(e: Entry, align: bool)
    requires e.length > 0
    ensures e.base <= Trim(e, align).base < Top(e) && Top(Trim(e, align)) <= Top(e)
    ensures align && e.kind == USABLE && Trim(e, align).length > 0 ==>
      Trim(e, align).base == AlignUp(e.base, PAGE) && Top(Trim(e, align)) == AlignDown(Top(e), PAGE)
    ensures align && e.kind == USABLE && Trim(e, align).length == 0 ==> AlignDown(Top(e), PAGE) <= AlignUp(e.base, PAGE)
  {
  }

  function TrimAll(m: seq<Entry>, align: bool): (r: seq<Entry>)
    ensures |r| == |m| && forall j :: 0 <= j < |m| ==> r[j] == Trim(m[j], align)
  {
    seq(|m|, j requires 0 <= j < |m| => Trim(m[j], align))
  }

  /** The trimming loop at entry `i`: `o` holds the entries as they were. */
  ghost predicate Trimming(m0: seq<Entry>, o: seq<Entry>, m: seq<Entry>, align: bool, i: nat)
  {
    && i <= |m| == |o| && Disjoint(o) && SameMap(TrimAll(m0, align), TrimAll(o, align))
    && (forall j :: 0 <= j < i ==> m[j] == Trim(o[j], align))
    && (forall j :: i <= j < |m| ==> m[j] == o[j])
    && (!align ==> o == m0)
  }

  /** What entry `j` does to usable entry `i`: nothing, if the map was disjoint. */
  predicate Bites(e: Entry, f: Entry)
  {
    e.base <= f.base < Top(e) || e.base < Top(f) < Top(e)
  }

  /** Entry `f` begins and ends in `e`, before its end. */
  predicate Inside(e: Entry, f: Entry) {
    e.base <= f.base && Top(f) < Top(e)
  }

  ghost predicate CoveredByOther(m: seq<Entry>, i: nat, a: nat) {
    exists j :: 0 <= j < |m| && j != i && Covers(m[j], a)
  }

  /** Entry `i` cut back to `e` for the entries before `n`. */
  ghost predicate CutTo(m: seq<Entry>, i: nat, e: Entry, n: nat)
    requires i < |m| && n <= |m|
  {
    && m[i].base <= e.base && Top(e) <= Top(m[i]) && e.kind == m[i].kind
    && (forall j :: 0 <= j < n && j != i ==> !Bites(e, m[j]))
    && (forall a: nat :: Covers(m[i], a) && !Covers(e, a) ==> CoveredByOther(m, i, a))
  }

  lemma CutNext(m: seq<Entry>, i: nat, e: Entry, j: nat, f: Entry)
    requires i < |m| && j < |m| && j != i && CutTo(m, i, e, j) && f.kind == e.kind
    requires !(e.base <= m[j].base < Top(e) && e.base <= Top(m[j]) < Top(e))
    requires var top := if e.base <= m[j].base < Top(e) then m[j].base else Top(e);
             Top(f) == top && f.base == if e.base <= Top(m[j]) < top then Top(m[j]) else e.base
    ensures CutTo(m, i, f, j + 1)
  {
    forall a: nat | Covers(m[i], a) && !Covers(f, a)
      ensures CoveredByOther(m, i, a)
    {
      if Covers(e, a) {
        assert Covers(m[j], a);
      }
    }
  }

  lemma NothingBites(m0: seq<Entry>, o: seq<Entry>, m: seq<Entry>, align: bool, i: nat, j: nat)
    requires Trimming(m0, o, m, align, i) && i < |m| && j < |m| && j != i
    ensures !Bites(m[i], m[j])
  {
    TrimInside(o[j], align);
    if i < j { assert Apart(o[i], o[j]); } else { assert Apart(o[j], o[i]); }
  }

  lemma TrimRemoveAll(o: seq<Entry>, align: bool, i: nat)
    requires i < |o| && Trim(o[i], align).length == 0
    ensures SameMap(TrimAll(o, align), TrimAll(SwapRemove(o, i), align))
  {
    var t := TrimAll(o, align);
    assert TrimAll(SwapRemove(o, i), align) == SwapRemove(t, i);
    forall a: nat, k: nat ensures Has(SwapRemove(t, i), a, k) <==> Has(t, a, k) {
      SwapRemoveHas(t, i, a, k);
    }
  }

  lemma SameMapTrans(m0: seq<Entry>, m1: seq<Entry>, m2: seq<Entry>)
    requires SameMap(m0, m1) && SameMap(m1, m2)
    ensures SameMap(m0, m2)
  {
  }

  lemma TrimRemove(m0: seq<Entry>, o: seq<Entry>, m: seq<Entry>, align: bool, i: nat)
    requires Trimming(m0, o, m, align, i) && i < |m| && align && m[i].kind == USABLE && m[i].length < PAGE
    ensures Trimming(m0, SwapRemove(o, i), SwapRemove(m, i), align, i)
  {
    TrimRemoveAll(o, align, i);
    SameMapTrans(TrimAll(m0, align), TrimAll(o, align), TrimAll(SwapRemove(o, i), align));
    SwapRemoveApart(o, i);
  }

  lemma TrimDone(m0: seq<Entry>, o: seq<Entry>, m: seq<Entry>, align: bool)
    requires Trimming(m0, o, m, align, |m|)
    ensures SameMap(TrimAll(m0, align), m) && AllApart(m)
    ensures forall j :: 0 <= j < |m| && m[j].kind != USABLE ==> m[j].length > 0
  {
    assert m == TrimAll(o, align);
    forall p, q | 0 <= p < q < |m| ensures Apart(m[p], m[q]) {
      TrimInside(o[p], align);
      TrimInside(o[q], align);
      assert Apart(o[p], o[q]);
    }
  }

  /** Some address keeps a type when the first page of usable memory goes. */
  ghost predicate Survives(m: seq<Entry>, keep: bool)
  {
    exists a: nat, k: nat :: Has(m, a, k) && (keep || k != USABLE || a >= PAGE)
  }

  lemma SurvivorsLeft(m0: seq<Entry>, m1: seq<Entry>, m2: seq<Entry>, keep: bool)
    requires SameMap(m0, m1) && FirstPageDropped(m1, m2, keep) && NoneEmpty(m2)
    ensures m2 != [] <==> Survives(m0, keep)
  {
    if m2 != [] {
      assert Covers(m2[0], m2[0].base);
      assert Has(m2, m2[0].base, m2[0].kind);
    }
    if Survives(m0, keep) {
      var a: nat, k: nat :| Has(m0, a, k) && (keep || k != USABLE || a >= PAGE);
      assert Has(m2, a, k);
    }
  }

  /** An entry of this type that ends at `top` is not dropped as a whole. */
  predicate Lasts(top: nat, kind: nat, keep: bool) { keep || kind != USABLE || top > PAGE }

  /** The range [base, top) now has the type `kind`, the rest of the map is as before, and usable
      memory below the first page boundary is gone unless it is kept. */
  ghost predicate Retyped(m0: seq<Entry>, m1: seq<Entry>, base: nat, top: nat, kind: nat, keep: bool)
  {
    forall a: nat, k: nat :: Has(m1, a, k) <==>
      (if base <= a < top then k == kind else Has(m0, a, k)) && (keep || k != USABLE || a >= PAGE)
  }

  /** Entry `e` may be overlaid and holds the whole range. */
  predicate Holds(e: Entry, base: nat, top: nat, overlay: nat)
  {
    (overlay == 0 || e.kind == overlay) && e.base <= base < Top(e) && top <= Top(e)
  }

  ghost predicate SomeHolds(m: seq<Entry>, base: nat, top: nat, overlay: nat)
  {
    exists i :: 0 <= i < |m| && Holds(m[i], base, top, overlay)
  }

  /** Every address of [base, top) has type `k`. */
  ghost predicate Typed(m: seq<Entry>, base: nat, top: nat, k: nat)
  {
    forall a: nat :: base <= a < top ==> Has(m, a, k)
  }

  /** No entry begins inside the range. */
  ghost predicate Whole(m: seq<Entry>, base: nat, top: nat)
  {
    forall i :: 0 <= i < |m| ==> !(base < m[i].base < top)
  }

  lemma HeldIsTyped(m: seq<Entry>, i: nat, base: nat, top: nat, k: nat)
    requires i < |m| && m[i].kind == k && m[i].base <= base && top <= Top(m[i])
    ensures Typed(m, base, top, k)
    ensures Disjoint(m) ==> Whole(m, base, top)
  {
    forall a: nat | base <= a < top ensures Has(m, a, k) {
      assert Covers(m[i], a);
    }
    if Disjoint(m) {
      forall j | 0 <= j < |m| ensures !(base < m[j].base < top) {
        assert j < i ==> Apart(m[j], m[i]);
        assert i < j ==> Apart(m[i], m[j]);
      }
    }
  }

  lemma NextBegins(m: seq<Entry>, i: nat, j: nat)
    requires Disjoint(m) && i < |m| && j < |m| && Covers(m[j], Top(m[i]))
    ensures m[j].base == Top(m[i])
  {
    assert i < j ==> Apart(m[i], m[j]);
    assert j < i ==> Apart(m[j], m[i]);
  }

  lemma TypedIsHeld(m: seq<Entry>, base: nat, top: nat, k: nat) returns (i: nat)
    requires Disjoint(m) && base < top && Typed(m, base, top, k) && Whole(m, base, top)
    ensures i < |m| && m[i].kind == k && m[i].base <= base < Top(m[i]) && top <= Top(m[i])
  {
    assert Has(m, base, k);
    i :| 0 <= i < |m| && Covers(m[i], base) && m[i].kind == k;
    if Top(m[i]) < top {
      assert Has(m, Top(m[i]), k);
      var j :| 0 <= j < |m| && Covers(m[j], Top(m[i]));
      NextBegins(m, i, j);
      assert false;
    }
  }

  /** An entry of type `overlay` holds the range exactly when every address of it has that type and no
      entry begins inside it. */
  lemma HoldsTyped(m: seq<Entry>, base: nat, top: nat, overlay: nat)
    requires base < top && overlay != 0
    ensures SomeHolds(m, base, top, overlay) ==> Typed(m, base, top, overlay)
    ensures Disjoint(m) ==>
      (SomeHolds(m, base, top, overlay) <==> Typed(m, base, top, overlay) && Whole(m, base, top))
  {
    if SomeHolds(m, base, top, overlay) {
      var i :| 0 <= i < |m| && Holds(m[i], base, top, overlay);
      HeldIsTyped(m, i, base, top, overlay);
    }
    if Disjoint(m) && Typed(m, base, top, overlay) && Whole(m, base, top) {
      var i := TypedIsHeld(m, base, top, overlay);
      assert Holds(m[i], base, top, overlay);
    }
  }

  /** Without a type to overlay, any one type will do. */
  lemma HoldsAny(m: seq<Entry>, base: nat, top: nat)
    requires base < top
    ensures SomeHolds(m, base, top, 0) ==> exists k :: Typed(m, base, top, k)
    ensures Disjoint(m) ==>
      (SomeHolds(m, base, top, 0) <==> (exists k :: Typed(m, base, top, k)) && Whole(m, base, top))
  {
    if SomeHolds(m, base, top, 0) {
      var i :| 0 <= i < |m| && Holds(m[i], base, top, 0);
      HeldIsTyped(m, i, base, top, m[i].kind);
    }
    if Disjoint(m) && Whole(m, base, top) && exists k :: Typed(m, base, top, k) {
      var k :| Typed(m, base, top, k);
      var i := TypedIsHeld(m, base, top, k);
      assert Holds(m[i], base, top, 0);
    }
  }

  /** In a tidy map no entry begins inside a range of one of the two types that are merged. */
  lemma MergedIsWhole(m: seq<Entry>, base: nat, top: nat, k: nat)
    requires Tidy(m) && Typed(m, base, top, k) && Merges(k)
    ensures Whole(m, base, top)
  {
    forall j | 0 <= j < |m| ensures !(base < m[j].base < top) {
      if base < m[j].base < top {
        assert Has(m, m[j].base - 1, k) && Has(m, m[j].base, k);
        var i :| 0 <= i < |m| && Covers(m[i], m[j].base - 1) && m[i].kind == k;
        var j' :| 0 <= j' < |m| && Covers(m[j'], m[j].base) && m[j'].kind == k;
        TouchingMerge(m, i, j, j');
        assert false;
      }
    }
  }

  lemma TouchingMerge(m: seq<Entry>, i: nat, j: nat, j': nat)
    requires Disjoint(m) && Sorted(m) && i < |m| && j < |m| && j' < |m| && m[j].base > 0
    requires Covers(m[i], m[j].base - 1) && Covers(m[j'], m[j].base) && m[i].kind == m[j'].kind
    requires Merges(m[i].kind)
    ensures i < |m| - 1 && Mergeable(m[i], m[i + 1])
  {
    assert forall p, q :: 0 <= p < q < |m| ==> Apart(m[p], m[q]);
    assert j == j' && m[i].base < m[j].base;
    assert i < j;
    assert m[i].base <= m[i + 1].base <= m[j].base;
  }

  lemma HoldsOverlay(m: seq<Entry>, base: nat, top: nat, overlay: nat)
    requires base < top
    ensures overlay != 0 && SomeHolds(m, base, top, overlay) ==> Typed(m, base, top, overlay)
    ensures Merges(overlay) && Tidy(m) && Typed(m, base, top, overlay) ==> SomeHolds(m, base, top, overlay)
  {
    if overlay != 0 {
      HoldsTyped(m, base, top, overlay);
      if Merges(overlay) && Tidy(m) && Typed(m, base, top, overlay) {
        MergedIsWhole(m, base, top, overlay);
      }
    }
  }

  /** Only usable and bootloader memory is merged: two reserved entries that touch stay apart, and a
      range of reserved memory across them is not held although all of it is reserved. */
  lemma ReservedApart()
    ensures var m := [Entry(0x10_0000, 0x1000, 2), Entry(0x10_1000, 0x1000, 2)];
      Tidy(m) && Typed(m, 0x10_0000, 0x10_2000, 2) && !SomeHolds(m, 0x10_0000, 0x10_2000, 2)
  {
    var m := [Entry(0x10_0000, 0x1000, 2), Entry(0x10_1000, 0x1000, 2)];
    forall a: nat | 0x10_0000 <= a < 0x10_2000 ensures Has(m, a, 2) {
      assert Covers(m[0], a) || Covers(m[1], a);
    }
  }

  /** A call either comes back with an answer or stops the boot. */
  datatype Outcome = Returned(value: bool) | Panic

  /** Sorted, disjoint, and with no neighbours left to merge. */
  ghost predicate Tidy(m: seq<Entry>)
  {
    Disjoint(m) && Sorted(m) && NothingToMerge(m)
  }

  lemma TrimNothing(m: seq<Entry>)
    ensures TrimAll(m, false) == m
  {
  }

  /** Dropping the first page once more changes nothing further. */
  lemma RetypedAgain(m0: seq<Entry>, m1: seq<Entry>, m2: seq<Entry>, base: nat, top: nat, kind: nat, keep: bool)
    requires Retyped(m0, m1, base, top, kind, keep) && FirstPageDropped(m1, m2, keep)
    ensures Retyped(m0, m2, base, top, kind, keep)
  {
  }

  /** Nor does reserving nothing, beyond dropping the first page. */
  lemma RetypedNothing(m0: seq<Entry>, m2: seq<Entry>, base: nat, kind: nat, keep: bool)
    requires FirstPageDropped(m0, m2, keep)
    ensures Retyped(m0, m2, base, base, kind, keep)
  {
  }

  lemma RetypedFrom(m0: seq<Entry>, m1: seq<Entry>, m2: seq<Entry>, base: nat, top: nat, kind: nat, keep: bool)
    requires Carved(m0, m1, base, top, kind) && FirstPageDropped(m1, m2, keep)
    ensures Retyped(m0, m2, base, top, kind, keep)
  {
  }

  /** A range handed out by the allocator: its start, the size asked for, and the size reserved for it. */
  datatype Live = Live(base: nat, count: nat, size: nat, kind: nat)

  predicate InLive(r: Live, a: nat) { r.base <= a < r.base + r.size }

  /** Every live range still has its type, and no two of them share an address. */
  ghost predicate Safe(m: seq<Entry>, live: set<Live>)
  {
    && Tidy(m)
    && (forall r, a: nat :: r in live && InLive(r, a) ==> Has(m, a, r.kind))
    && (forall r :: r in live ==> r.kind != USABLE)
    && (forall r, q, a: nat :: r in live && q in live && r != q && InLive(r, a) ==> !InLive(q, a))
  }

  /** A disjoint map gives an address at most one type. */
  lemma OneType(m: seq<Entry>, a: nat, k: nat, l: nat)
    requires Disjoint(m) && Has(m, a, k) && Has(m, a, l)
    ensures k == l
  {
    var i :| 0 <= i < |m| && Covers(m[i], a) && m[i].kind == k;
    var j :| 0 <= j < |m| && Covers(m[j], a) && m[j].kind == l;
    if i < j { assert Apart(m[i], m[j]); } else if j < i { assert Apart(m[j], m[i]); }
  }

  /** Retyping usable memory cannot hit a live range. */
  lemma AllocSafe(m0: seq<Entry>, m1: seq<Entry>, live: set<Live>, r: Live, top: nat, keep: bool)
    requires Safe(m0, live) && Tidy(m1) && Retyped(m0, m1, r.base, top, r.kind, keep) && r.kind != USABLE
    requires r.base + r.size <= top
    requires forall a: nat :: r.base <= a < top ==> Has(m0, a, USABLE)
    ensures Safe(m1, live + {r})
    ensures forall q, a: nat :: q in live && InLive(q, a) ==> !InLive(r, a)
  {
    forall q, a: nat | q in live && InLive(q, a) ensures !(r.base <= a < top) && Has(m1, a, q.kind) {
      if r.base <= a < top {
        OneType(m0, a, USABLE, q.kind);
      }
    }
  }

  lemma AlignUpFacts(x: nat, a: nat)
    requires a > 0
    ensures AlignUp(x, a) % a == 0 && x <= AlignUp(x, a) < x + a
  {
    var q, r := DivMod(x + (a - 1), a);
    DivUnique(AlignUp(x, a), q, 0, a);
  }

  lemma AlignDownFacts(x: nat, a: nat)
    requires a > 0
    ensures AlignDown(x, a) % a == 0 && AlignDown(x, a) <= x < AlignDown(x, a) + a
  {
    var q, r := DivMod(x, a);
    DivUnique(AlignDown(x, a), q, 0, a);
  }

  /** Freeing rounds up to pages, allocating to the alignment: what is freed stays inside what was
      reserved, for every size, exactly when the alignment is a multiple of the page size. */
  lemma FreeStaysInside(alignment: nat)
    requires alignment > 0
    ensures alignment % PAGE == 0 <==> forall count: nat :: AlignUp(count, PAGE) <= AlignUp(count, alignment)
  {
    if alignment % PAGE == 0 {
      forall count: nat ensures AlignUp(count, PAGE) <= AlignUp(count, alignment) {
        FreeFits(count, alignment);
      }
    } else {
      AlignUpFacts(alignment, alignment);
      AlignUpFacts(alignment, PAGE);
      MultipleSelf(alignment);
      assert AlignUp(alignment, PAGE) > AlignUp(alignment, alignment);
    }
  }

  lemma MultipleSelf(a: nat)
    requires a > 0
    ensures AlignUp(a, a) == a
  {
    DivUnique(a + (a - 1), 1, a - 1, a);
  }

  lemma FreeFits(count: nat, alignment: nat)
    requires alignment > 0 && alignment % PAGE == 0
    ensures AlignUp(count, PAGE) <= AlignUp(count, alignment)
  {
    AlignUpFacts(count, PAGE);
    AlignUpFacts(count, alignment);
    var q, r := DivMod(AlignUp(count, alignment), alignment);
    Associate(q, alignment / PAGE, PAGE);
    assert alignment == alignment / PAGE * PAGE;
    assert AlignUp(count, alignment) == (q * (alignment / PAGE)) * PAGE;
    var u := AlignUp(count, alignment);
    assert u % PAGE == 0 by { DivUnique(u, q * (alignment / PAGE), 0, PAGE); }
  }

  /** Where an allocation of `count` bytes would go in entry `e`, seen from the top down. */
  function Ceiling(e: Entry, high: bool): nat
  {
    if Top(e) >= FOUR_GIB && !high then FOUR_GIB else Top(e)
  }

  predicate Roomy(e: Entry, count: nat, alignment: nat, high: bool)
    requires alignment > 0
  {
    && e.kind == USABLE
    && e.base < Ceiling(e, high) && count <= Ceiling(e, high)
    && e.base <= AlignDown(Ceiling(e, high) - count, alignment)
  }

  /** Entry `i` has room and no later entry has. */
  ghost predicate LastRoomy(m: seq<Entry>, i: int, count: nat, alignment: nat, high: bool)
    requires alignment > 0
  {
    && 0 <= i < |m| && Roomy(m[i], count, alignment, high)
    && forall j :: i < j < |m| ==> !Roomy(m[j], count, alignment, high)
  }

  ghost predicate AnyRoomy(m: seq<Entry>, count: nat, alignment: nat, high: bool)
    requires alignment > 0
  {
    exists i :: 0 <= i < |m| && Roomy(m[i], count, alignment, high)
  }

  /** The range [base, base + size) is aligned, usable, below 4 GiB unless high memory is allowed, and
      the highest such range of the last entry with room. */
  ghost predicate Allocates(m: seq<Entry>, base: nat, size: nat, alignment: nat, high: bool)
    requires alignment > 0
  {
    && base % alignment == 0
    && (forall a: nat :: base <= a < base + size ==> Has(m, a, USABLE))
    && (!high ==> base + size <= FOUR_GIB)
    && exists i :: LastRoomy(m, i, size, alignment, high) && base == AlignDown(Ceiling(m[i], high) - size, alignment)
  }

  /** The last entry with room gives [base, top), where `top` is its end or the 4 GiB limit. */
  ghost predicate TakenFrom(m: seq<Entry>, base: nat, top: nat, size: nat, alignment: nat, high: bool)
    requires alignment > 0
  {
    exists i :: LastRoomy(m, i, size, alignment, high) && top == Ceiling(m[i], high) && base == AlignDown(top - size, alignment)
  }

  /** What `pmm_free` does to the map: the pages from `base` on become usable, and nothing else changes. */
  ghost predicate FreedAs(m0: seq<Entry>, m1: seq<Entry>, base: nat, count: nat, keep: bool)
  {
    if AlignUp(count, PAGE) == 0 then m1 == m0
    else Tidy(m1) && Retyped(m0, m1, base, base + AlignUp(count, PAGE), USABLE, keep)
  }

  /** The pages given back with `r` meet no other live range. */
  ghost predicate Spares(live: set<Live>, r: Live)
  {
    forall q, a: nat :: q in live && q != r && InLive(q, a) ==> !(r.base <= a < r.base + AlignUp(r.count, PAGE))
  }

  /** Giving a range back leaves the others safe exactly when its pages meet none of them. */
  lemma FreeSafeExactly(m0: seq<Entry>, m1: seq<Entry>, live: set<Live>, r: Live, keep: bool)
    requires Safe(m0, live) && r in live && FreedAs(m0, m1, r.base, r.count, keep)
    ensures Safe(m1, live - {r}) <==> Spares(live, r)
  {
    if AlignUp(r.count, PAGE) > 0 && !Spares(live, r) {
      var q, a: nat :| q in live && q != r && InLive(q, a) && r.base <= a < r.base + AlignUp(r.count, PAGE);
      assert !Has(m1, a, q.kind);
    }
  }

  /** A range that was given at least its pages spares all others. */
  lemma FreeSafe(m: seq<Entry>, live: set<Live>, r: Live)
    requires Safe(m, live) && r in live && AlignUp(r.count, PAGE) <= r.size
    ensures Spares(live, r)
  {
    forall q, a: nat | q in live && q != r && InLive(q, a) ensures !(r.base <= a < r.base + AlignUp(r.count, PAGE)) {
      assert !InLive(r, a);
    }
  }

  ghost predicate Misses(live: set<Live>, r: Live)
  {
    forall q, a: nat :: q in live && InLive(q, a) ==> !InLive(r, a)
  }

  lemma AllocationFrom(m: seq<Entry>, i: nat, base: nat, size: nat, alignment: nat, high: bool)
    requires alignment > 0 && LastRoomy(m, i, size, alignment, high)
    requires base == AlignDown(Ceiling(m[i], high) - size, alignment)
    requires base % alignment == 0 && base + size <= Ceiling(m[i], high)
    ensures Allocates(m, base, size, alignment, high)
  {
    forall a: nat | base <= a < base + size ensures Has(m, a, USABLE) {
      assert Covers(m[i], a);
    }
  }

  /** [base, base + size) is an aligned range of usable memory, below 4 GiB unless high memory is allowed. */
  ghost predicate Fits(m: seq<Entry>, base: nat, size: nat, alignment: nat, high: bool)
    requires alignment > 0
  {
    base % alignment == 0 && Typed(m, base, base + size, USABLE) && (high || base + size <= 0x1_0000_0000)
  }

  lemma GreatestMultiple(b: nat, x: nat, a: nat)
    requires a > 0 && b % a == 0 && b <= x
    ensures b <= AlignDown(x, a)
  {
    var q, r := DivMod(x, a);
    var p, _ := DivMod(b, a);
    if q < p {
      MulGap(q, p, a);
    } else {
      MulLe(p, q, a);
    }
  }

  lemma RoomyFor(e: Entry, base: nat, size: nat, alignment: nat, high: bool)
    requires alignment > 0 && size > 0 && e.kind == USABLE && base % alignment == 0
    requires e.base <= base && base + size <= Top(e) && (high || base + size <= FOUR_GIB)
    ensures Roomy(e, size, alignment, high) && base <= AlignDown(Ceiling(e, high) - size, alignment)
  {
    GreatestMultiple(base, Ceiling(e, high) - size, alignment);
  }

  lemma FitIsRoomy(m: seq<Entry>, base: nat, size: nat, alignment: nat, high: bool) returns (i: nat)
    requires alignment > 0 && size > 0 && Tidy(m) && Fits(m, base, size, alignment, high)
    ensures i < |m| && Roomy(m[i], size, alignment, high) && base + size <= Top(m[i])
    ensures base <= AlignDown(Ceiling(m[i], high) - size, alignment)
  {
    MergedIsWhole(m, base, base + size, USABLE);
    i := TypedIsHeld(m, base, base + size, USABLE);
    RoomyFor(m[i], base, size, alignment, high);
  }

  /** In a tidy map an entry has room exactly when some range of usable memory fits the request. */
  lemma RoomExactly(m: seq<Entry>, size: nat, alignment: nat, high: bool)
    requires alignment > 0 && size > 0 && Tidy(m)
    ensures AnyRoomy(m, size, alignment, high) <==> exists base: nat :: Fits(m, base, size, alignment, high)
  {
    if AnyRoomy(m, size, alignment, high) {
      var i :| 0 <= i < |m| && Roomy(m[i], size, alignment, high);
      var x := Ceiling(m[i], high) - size;
      AlignDownFacts(x, alignment);
      HeldIsTyped(m, i, AlignDown(x, alignment), AlignDown(x, alignment) + size, USABLE);
      assert Fits(m, AlignDown(x, alignment), size, alignment, high);
    } else if base: nat :| Fits(m, base, size, alignment, high) {
      var i := FitIsRoomy(m, base, size, alignment, high);
      assert false;
    }
  }

  /** What the allocator takes from a tidy map is the highest range that fits. */
  lemma HighestFit(m: seq<Entry>, base: nat, other: nat, size: nat, alignment: nat, high: bool)
    requires alignment > 0 && size > 0 && Tidy(m) && Allocates(m, base, size, alignment, high)
    requires Fits(m, other, size, alignment, high)
    ensures Fits(m, base, size, alignment, high) && other <= base
  {
    var i :| LastRoomy(m, i, size, alignment, high) && base == AlignDown(Ceiling(m[i], high) - size, alignment);
    var j := FitIsRoomy(m, other, size, alignment, high);
    if j < i {
      assert Apart(m[j], m[i]) && m[j].base <= m[i].base;
    }
  }

  /** The types that count as memory present in the machine. */
  predicate IsRam(k: nat, uefi: bool)
  {
    k == USABLE || (uefi && k == EFI_RECLAIMABLE) || k == BOOTLOADER_RECLAIMABLE || k == KERNEL_AND_MODULES
  }

  ghost predicate RamAt(m: seq<Entry>, a: nat, uefi: bool)
  {
    exists i :: 0 <= i < |m| && Covers(m[i], a) && IsRam(m[i].kind, uefi)
  }

  /** Usable, bootloader and kernel memory, and with UEFI what it gives back. */
  lemma RamTypes(m: seq<Entry>, a: nat, uefi: bool)
    ensures RamAt(m, a, uefi) <==>
      Has(m, a, 1) || Has(m, a, 0x1000) || Has(m, a, 0x1001) || (uefi && Has(m, a, 0x2000))
  {
  }

  predicate Within(a: int, lo: int, hi: int) { lo <= a < hi }

  ghost function Range(lo: int, hi: int): set<int> { set a | lo <= a < hi && Within(a, lo, hi) }

  lemma {:induction false} RangeSize(lo: int, hi: int)
    requires lo <= hi
    ensures |Range(lo, hi)| == hi - lo
    decreases hi - lo
  {
    if lo >= hi {
    } else {
      RangeSize(lo, hi - 1);
      assert Range(lo, hi) == Range(lo, hi - 1) + {hi - 1};
    }
  }

  ghost predicate RamBefore(m: seq<Entry>, n: nat, a: int, uefi: bool)
    requires n <= |m|
  {
    exists i :: 0 <= i < n && m[i].base <= a < Top(m[i]) && IsRam(m[i].kind, uefi)
  }

  /** Addresses of [base, top) covered by RAM among the first `n` entries. */
  ghost function RamIn(m: seq<Entry>, n: nat, base: nat, top: nat, uefi: bool): set<int>
    requires n <= |m|
  {
    set a | base <= a < top && RamBefore(m, n, a, uefi)
  }

  function Max(a: nat, b: nat): nat { if a < b then b else a }

  lemma RamMember(m: seq<Entry>, n: nat, a: int, uefi: bool)
    requires n < |m|
    ensures RamBefore(m, n + 1, a, uefi) <==>
      RamBefore(m, n, a, uefi) || (m[n].base <= a < Top(m[n]) && IsRam(m[n].kind, uefi))
  {
    if RamBefore(m, n + 1, a, uefi) {
      var i :| 0 <= i < n + 1 && m[i].base <= a < Top(m[i]) && IsRam(m[i].kind, uefi);
    }
  }

  /** One more entry adds its overlap with the range. */
  lemma RamGrows(m: seq<Entry>, n: nat, base: nat, top: nat, uefi: bool)
    requires n < |m| && base < top
    ensures RamIn(m, n + 1, base, top, uefi) == RamIn(m, n, base, top, uefi) +
      if IsRam(m[n].kind, uefi) then Range(Max(base, m[n].base), Min(top, Top(m[n]))) else {}
  {
    forall a: int ensures RamBefore(m, n + 1, a, uefi) <==>
      RamBefore(m, n, a, uefi) || (m[n].base <= a < Top(m[n]) && IsRam(m[n].kind, uefi))
    {
      RamMember(m, n, a, uefi);
    }
  }

  /** No address of a new entry was counted before. */
  lemma RamNew(m: seq<Entry>, n: nat, base: nat, top: nat, uefi: bool, lo: nat, hi: nat)
    requires Disjoint(m) && n < |m| && m[n].base <= lo && hi <= Top(m[n])
    ensures RamIn(m, n, base, top, uefi) !! Range(lo, hi)
  {
    forall a | a in RamIn(m, n, base, top, uefi) ensures a !in Range(lo, hi) {
      var i :| 0 <= i < n && m[i].base <= a < Top(m[i]) && IsRam(m[i].kind, uefi);
      assert Apart(m[i], m[n]);
    }
  }

  lemma RamStep(m: seq<Entry>, n: nat, base: nat, top: nat, uefi: bool)
    requires Disjoint(m) && n < |m| && base < top
    ensures var lo, hi := Max(base, m[n].base), Min(top, Top(m[n]));
            |RamIn(m, n + 1, base, top, uefi)| ==
              |RamIn(m, n, base, top, uefi)| + if IsRam(m[n].kind, uefi) && lo < hi then hi - lo else 0
  {
    var lo, hi := Max(base, m[n].base), Min(top, Top(m[n]));
    RamGrows(m, n, base, top, uefi);
    RamNew(m, n, base, top, uefi, lo, hi);
    if lo < hi {
      RangeSize(lo, hi);
    } else {
      assert Range(lo, hi) == {};
    }
  }

  lemma RamBounded(m: seq<Entry>, n: nat, base: nat, top: nat, uefi: bool)
    requires n <= |m| && base < top
    ensures |RamIn(m, n, base, top, uefi)| <= top - base
    ensures |RamIn(m, n, base, top, uefi)| == top - base <==> RamIn(m, n, base, top, uefi) == Range(base, top)
  {
    RangeSize(base, top);
    var r := RamIn(m, n, base, top, uefi);
    Subset(r, Range(base, top));
  }

  lemma Subset(r: set<int>, s: set<int>)
    requires r <= s
    ensures |r| <= |s| && (|r| == |s| <==> r == s)
  {
    assert s == r + (s - r);
    assert |s| == |r| + |s - r|;
    if |s - r| == 0 {
      assert s - r == {};
    }
  }

  /** Covered by the first entries means covered by the map. */
  lemma RamCovers(m: seq<Entry>, n: nat, base: nat, top: nat, uefi: bool)
    requires n <= |m| && RamIn(m, n, base, top, uefi) == Range(base, top)
    ensures forall a: nat :: base <= a < top ==> RamAt(m, a, uefi)
  {
    forall a: nat | base <= a < top ensures RamAt(m, a, uefi) {
      assert a in Range(base, top);
      assert a in RamIn(m, n, base, top, uefi);
    }
  }

  lemma RamAllCounted(m: seq<Entry>, base: nat, top: nat, uefi: bool)
    requires forall a: nat :: base <= a < top ==> RamAt(m, a, uefi)
    ensures RamIn(m, |m|, base, top, uefi) == Range(base, top)
  {
    forall a | a in Range(base, top) ensures a in RamIn(m, |m|, base, top, uefi) {
      assert RamAt(m, a, uefi);
    }
  }

  predicate FullOverlap(base1: nat, top1: nat, base2: nat, top2: nat)
  {
    base2 <= base1 < top2 && base2 < top1 <= top2
  }

  datatype Request = Take(count: nat, kind: nat, alignment: nat, high: bool) | Give(r: Live)

  /** Allocations are aligned to whole pages, which is what makes freeing safe. */
  predicate WellAsked(q: Request) {
    q.Take? ==> q.alignment > 0 && q.alignment % PAGE == 0 && q.kind != USABLE
  }

  /** What became of a request. */
  datatype Done = Took(r: Live) | Gave(r: Live) | Ignored

  function Changed(live: set<Live>, d: Done): set<Live> {
    match d
    case Took(r) => live + {r}
    case Gave(r) => live - {r}
    case Ignored => live
  }

  /** The ranges taken and not given back. */
  function LiveAfter(done: seq<Done>): set<Live> {
    if done == [] then {} else Changed(LiveAfter(done[..|done| - 1]), done[|done| - 1])
  }

  /** `d` answers the request in map `m0` with live ranges `live`, and leaves `m1`. */
  ghost predicate Answers(m0: seq<Entry>, m1: seq<Entry>, live: set<Live>, q: Request, d: Done, keep: bool) {
    match q
    case Take(count, kind, alignment, high) =>
      && d.Took? && alignment > 0
      && d.r == Live(d.r.base, count, AlignUp(count, alignment), kind)
      && Allocates(m0, d.r.base, d.r.size, alignment, high) && Misses(live, d.r)
      && exists top: nat :: TakenFrom(m0, d.r.base, top, d.r.size, alignment, high) && Retyped(m0, m1, d.r.base, top, kind, keep)
    case Give(r) =>
      if r in live then d == Gave(r) && FreedAs(m0, m1, r.base, r.count, keep) else d == Ignored && m1 == m0
  }

  /**
   * The run answered its requests one after the other, going through `maps`, and in each of them the
   * live ranges have their types and do not meet.
   */
  ghost predicate Traced(maps: seq<seq<Entry>>, requests: seq<Request>, done: seq<Done>, keep: bool)
    decreases |done|
  {
    var n := |done|;
    && |maps| == n + 1 && n <= |requests| && Safe(maps[n], LiveAfter(done))
    && (n > 0 ==> Traced(maps[..n], requests, done[..n - 1], keep) &&
                  Answers(maps[n - 1], maps[n], LiveAfter(done[..n - 1]), requests[n - 1], done[n - 1], keep))
  }

  lemma TracedMore(maps: seq<seq<Entry>>, requests: seq<Request>, done: seq<Done>, keep: bool, m: seq<Entry>, d: Done)
    requires Traced(maps, requests, done, keep) && |done| < |requests|
    requires Answers(maps[|done|], m, LiveAfter(done), requests[|done|], d, keep) && Safe(m, Changed(LiveAfter(done), d))
    ensures Traced(maps + [m], requests, done + [d], keep) && LiveAfter(done + [d]) == Changed(LiveAfter(done), d)
  {
    assert (done + [d])[..|done|] == done && (maps + [m])[..|done| + 1] == maps;
  }

  /** So at every point of the run: the state is safe, and the next answer was right for it. */
  lemma {:induction false} TracedAt(maps: seq<seq<Entry>>, requests: seq<Request>, done: seq<Done>, keep: bool, i: nat)
    requires Traced(maps, requests, done, keep) && i <= |done|
    ensures Safe(maps[i], LiveAfter(done[..i]))
    ensures i < |done| ==> Answers(maps[i], maps[i + 1], LiveAfter(done[..i]), requests[i], done[i], keep)
    decreases |done|
  {
    var n := |done|;
    assert done[..n] == done;
    if i >= n {
    } else {
      TracedAt(maps[..n], requests, done[..n - 1], keep, i);
      assert done[..n - 1][..i] == done[..i];
    }
  }

  /** Freeing cannot run out of entries, nor leave nothing but the first page. */
  ghost predicate CanFree(m: seq<Entry>, base: nat, count: nat, maxEntries: nat, keep: bool) {
    AlignUp(count, PAGE) == 0 || (|m| + 2 <= maxEntries && Lasts(base + AlignUp(count, PAGE), USABLE, keep))
  }

  /** The only reasons for a panic: no entry has room, or the list of entries may be full. */
  ghost predicate MayPanic(m: seq<Entry>, q: Request, maxEntries: nat, keep: bool) {
    match q
    case Take(count, _, alignment, high) =>
      count == 0 || |m| + 2 > maxEntries || (alignment > 0 && !AnyRoomy(m, AlignUp(count, alignment), alignment, high))
    case Give(r) => !CanFree(m, r.base, r.count, maxEntries, keep)
  }

  class MemMap {
    var m: seq<Entry>
    const maxEntries: nat
    var keepFirstPage: bool

    constructor (entries: seq<Entry>, limit: nat, keep: bool)
      ensures m == entries && maxEntries == limit && keepFirstPage == keep
    {
      m, maxEntries, keepFirstPage := entries, limit, keep;
    }

    /** Carves [base, base + length) out of all entries and appends it with its new type.
        False stands for the panic when the list is full. */
    method NewEntry(base: nat, length: nat, kind: nat) returns (ok: bool)
      requires length > 0
      modifies this`m
      ensures ok ==> Carved(old(m), m, base, base + length, kind) && |m| <= maxEntries
      ensures ok && Disjoint(old(m)) ==> Disjoint(m) && |m| <= |old(m)| + 2
      ensures Disjoint(old(m)) && |old(m)| + 2 <= maxEntries ==> ok
      ensures |old(m)| <= maxEntries ==> |m| <= maxEntries
      ensures !ok ==> |m| >= maxEntries
    {
      var top := base + length;
      ghost var m0 := m;
      ghost var extra: nat := 0;
      var i: nat := 0;
      while i < |m|
        invariant Carving(m0, m, base, top, i, extra) && (|m0| <= maxEntries ==> |m| <= maxEntries)
        decreases 2 * (|m| - extra - i) + extra
      {
        ok, i, extra := Carve(base, top, i, extra, m0);
        if !ok {
          return;
        }
      }
      if |m| >= maxEntries {
        return false;
      }
      CarveDone(m0, m, base, top, kind, extra);
      m := m + [Entry(base, length, kind)];
      ok := true;
    }

    /** The range is cut out of entry `i`, which is removed, shortened, or cut in two. */
    method Carve(base: nat, top: nat, i: nat, ghost extra: nat, ghost m0: seq<Entry>) returns (ok: bool, j: nat, ghost more: nat)
      requires base < top && i < |m| && Carving(m0, m, base, top, i, extra)
      modifies this`m
      ensures ok ==> Carving(m0, m, base, top, j, more) && 2 * (|m| - more - j) + more < 2 * (old(|m|) - extra - i) + extra
      ensures Disjoint(m0) && |m0| + 2 <= maxEntries ==> ok
      ensures |old(m)| <= maxEntries ==> |m| <= maxEntries
      ensures !ok ==> |m| >= maxEntries
    {
      ok, j, more := true, i + 1, extra;
      var e := m[i];
      if base <= e.base && top >= Top(e) {
        CarveRemove(m0, m, base, top, i, extra);
        m := SwapRemove(m, i);
        j, more := i, if extra > 0 then extra - 1 else 0;
      } else if base <= e.base && top < Top(e) && top > e.base {
        CarveShrink(m0, m, base, top, i, extra, Above(e, top));
        m := m[i := Entry(e.base + (top - e.base), e.length - (top - e.base), e.kind)];
      } else if base > e.base && base < Top(e) && top >= Top(e) {
        CarveShrink(m0, m, base, top, i, extra, Below(e, base));
        m := m[i := e.(length := e.length - (Top(e) - base))];
      } else if base > e.base && top < Top(e) {
        CarveNested(m0, m, base, top, i, extra);
        m := m[i := e.(length := e.length - (Top(e) - base))];
        if |m| >= maxEntries {
          return false, j, more;
        }
        m := m + [Entry(top, Top(e) - top, e.kind)];
        more := extra + 1;
      } else if i + extra == |m| {
        more := extra - 1;
      }
    }

    /** Removes usable entries that are empty and, unless it is kept, the first page of usable memory. */
    method DropFirstPage()
      modifies this`m
      ensures FirstPageDropped(old(m), m, keepFirstPage) && |m| <= |old(m)|
      ensures AllApart(old(m)) ==> AllApart(m)
      ensures (forall j :: 0 <= j < |old(m)| && old(m)[j].kind != USABLE ==> old(m)[j].length > 0) ==> NoneEmpty(m)
    {
      ghost var m0 := m;
      var i := 0;
      while i < |m|
        invariant Dropping(m0, m, keepFirstPage, i) && |m| <= |m0|
        decreases |m| - i
      {
        if m[i].kind != USABLE {
          i := i + 1;
        } else if !keepFirstPage && m[i].base < PAGE && m[i].base + m[i].length <= PAGE {
          DropRemove(m0, m, keepFirstPage, i);
          m := SwapRemove(m, i);
        } else if !keepFirstPage && m[i].base < PAGE {
          DropShave(m0, m, keepFirstPage, i);
          m := m[i := Entry(PAGE, m[i].length - (PAGE - m[i].base), m[i].kind)];
          i := i + 1;
        } else if m[i].length == 0 {
          DropRemove(m0, m, keepFirstPage, i);
          m := SwapRemove(m, i);
        } else {
          i := i + 1;
        }
      }
      DropDone(m0, m, keepFirstPage);
    }

    /** Selection sort by base address. */
    method Sort()
      requires |m| > 0
      modifies this`m
      ensures Sorted(m) && SameMap(old(m), m) && |m| == |old(m)|
      ensures Disjoint(old(m)) ==> Disjoint(m)
    {
      ghost var m0 := m;
      var p := 0;
      while p < |m| - 1
        invariant 0 <= p <= |m| - 1 && |m| == |m0| && SameMap(m0, m) && (Disjoint(m0) ==> Disjoint(m))
        invariant forall i, j :: 0 <= i < p && i < j < |m| ==> m[i].base <= m[j].base
      {
        var min, minIndex := m[p].base, p;
        var i := p;
        while i < |m|
          invariant p <= i <= |m| && p <= minIndex < |m| && min == m[minIndex].base
          invariant forall j :: p <= j < i ==> min <= m[j].base
          invariant min <= m[p].base
        {
          if m[i].base < min {
            min, minIndex := m[i].base, i;
          }
          i := i + 1;
        }
        SwapSame(m, p, minIndex);
        ghost var m1 := m;
        m := m[minIndex := m[p]][p := m[minIndex]];
        assert m == Swap(m1, p, minIndex);
        p := p + 1;
      }
    }

    /** Joins neighbours of the same reclaimable or usable type. */
    method Merge()
      requires |m| > 0
      modifies this`m
      ensures SameMap(old(m), m) && NothingToMerge(m) && 0 < |m| <= |old(m)|
      ensures Disjoint(old(m)) && Sorted(old(m)) ==> Disjoint(m) && Sorted(m)
    {
      ghost var m0 := m;
      var i := 0;
      while i < |m| - 1
        invariant 0 <= i < |m| <= |m0| && SameMap(m0, m)
        invariant Disjoint(m0) && Sorted(m0) ==> Disjoint(m) && Sorted(m)
        invariant forall j :: 0 <= j < i ==> !Mergeable(m[j], m[j + 1])
        decreases |m| - i
      {
        if Mergeable(m[i], m[i + 1]) {
          MergeSame(m, i);
          if Disjoint(m) && Sorted(m) {
            MergeKeeps(m, i);
          }
          m := MergeAt(m, i);
        } else {
          i := i + 1;
        }
      }
    }

    /**
     * Cuts usable entry `i` back where other entries overlap it: what is left of it no other entry begins or
     * ends in, and what is gone other entries have. False stands for the panic when another entry lies inside
     * it.
     */
    method CutBack(i: nat) returns (ok: bool)
      requires i < |m|
      modifies this`m
      ensures |m| == |old(m)| && forall j :: 0 <= j < |m| && j != i ==> m[j] == old(m)[j]
      ensures ok ==> CutTo(old(m), i, m[i], |m|)
      ensures !ok ==> exists j :: 0 <= j < |m| && j != i && Inside(old(m)[i], old(m)[j])
      ensures m[i].kind == old(m)[i].kind
      ensures (forall j :: 0 <= j < |m| && j != i ==> !Bites(old(m)[i], old(m)[j])) ==> ok && m == old(m)
    {
      ghost var m0 := m;
      var j := 0;
      while j < |m|
        invariant 0 <= j <= |m| == |m0| && (forall p :: 0 <= p < |m| && p != i ==> m[p] == m0[p])
        invariant CutTo(m0, i, m[i], j)
        invariant (forall p :: 0 <= p < |m| && p != i ==> !Bites(m0[i], m0[p])) ==> m == m0
      {
        if j != i {
          var base, top := m[i].base, Top(m[i]);
          var resBase, resTop := m[j].base, Top(m[j]);
          if base <= resBase < top && base <= resTop < top {
            assert Inside(m0[i], m0[j]);
            return false;
          }
          if base <= resBase < top {
            top := resBase;
          }
          if base <= resTop < top {
            base := resTop;
          }
          CutNext(m0, i, m[i], j, Entry(base, top - base, m[i].kind));
          m := m[i := Entry(base, top - base, m[i].kind)];
        }
        j := j + 1;
      }
      ok := true;
    }

    /** The first pass over the map: usable entries are cut back and, on request, page-aligned. */
    method TrimUsable(align: bool) returns (ok: bool)
      modifies this`m
      ensures Disjoint(old(m)) ==>
        && ok && SameMap(TrimAll(old(m), align), m) && AllApart(m)
        && (forall j :: 0 <= j < |m| && m[j].kind != USABLE ==> m[j].length > 0)
        && (!align ==> m == old(m))
      ensures |m| <= |old(m)|
    {
      ghost var m0, o := m, m;
      var i := 0;
      while i < |m|
        invariant 0 <= i <= |m| <= |m0| && (Disjoint(m0) ==> Trimming(m0, o, m, align, i))
        decreases |m| - i
      {
        if m[i].kind == USABLE {
          if Disjoint(m0) {
            forall j | 0 <= j < |m| && j != i ensures !Bites(m[i], m[j]) {
              NothingBites(m0, o, m, align, i, j);
            }
          }
          ok := CutBack(i);
          if !ok {
            return;
          }
          if m[i].length == 0 || (align && m[i].length < PAGE) {
            if Disjoint(m0) {
              TrimRemove(m0, o, m, align, i);
              o := SwapRemove(o, i);
            }
            m := SwapRemove(m, i);
          } else {
            m := m[i := Trim(m[i], align)];
            i := i + 1;
          }
        } else {
          i := i + 1;
        }
      }
      if Disjoint(m0) {
        TrimDone(m0, o, m, align);
      }
      ok := true;
    }

    /** The whole clean-up. False stands for a panic, or for running off the array when nothing is left. */
    method Sanitise(align: bool) returns (ok: bool)
      modifies this`m
      ensures Disjoint(old(m)) ==> (ok <==> Survives(TrimAll(old(m), align), keepFirstPage))
      ensures Disjoint(old(m)) && ok ==>
        && FirstPageDropped(TrimAll(old(m), align), m, keepFirstPage)
        && Disjoint(m) && Sorted(m) && NothingToMerge(m)
      ensures |m| <= |old(m)|
    {
      ghost var m0 := m;
      ok := TrimUsable(align);
      if !ok {
        return;
      }
      ghost var m1 := m;
      DropFirstPage();
      if Disjoint(m0) {
        SurvivorsLeft(TrimAll(m0, align), m1, m, keepFirstPage);
      }
      if |m| == 0 {
        return false;
      }
      Sort();
      Merge();
      ok := true;
    }

    /** Carves and cleans up. */
    method Retype(base: nat, length: nat, kind: nat) returns (ok: bool)
      requires length > 0
      modifies this`m
      ensures ok && Disjoint(old(m)) ==>
        Retyped(old(m), m, base, base + length, kind, keepFirstPage) && Tidy(m) && |m| <= |old(m)| + 2
      ensures Disjoint(old(m)) && |old(m)| + 2 <= maxEntries && Lasts(base + length, kind, keepFirstPage) ==> ok
      ensures |old(m)| <= maxEntries ==> |m| <= maxEntries
    {
      ghost var m0 := m;
      ok := NewEntry(base, length, kind);
      if ok {
        ghost var m1 := m;
        TrimNothing(m1);
        if Lasts(base + length, kind, keepFirstPage) {
          assert Has(m1, base + length - 1, kind);
        }
        ok := Sanitise(false);
        if ok && Disjoint(m0) {
          RetypedFrom(m0, m1, m, base, base + length, kind, keepFirstPage);
        }
      }
    }

    method AllocRange(base: nat, length: nat, kind: nat, overlay: nat, doPanic: bool, simulation: bool, newEntry: bool)
        returns (r: Outcome)
      modifies this`m
      ensures length == 0 || (simulation && newEntry) ==> r == Returned(true) && m == old(m)
      ensures length > 0 && simulation && !newEntry ==>
        && m == old(m)
        && (SomeHolds(m, base, base + length, overlay) ==> r == Returned(true))
        && (!SomeHolds(m, base, base + length, overlay) ==> r == if doPanic then Panic else Returned(false))
      ensures length > 0 && !simulation && (newEntry || SomeHolds(old(m), base, base + length, overlay)) ==>
        && r != Returned(false)
        && (r == Returned(true) && Disjoint(old(m)) ==>
             Retyped(old(m), m, base, base + length, kind, keepFirstPage) && Tidy(m) && |m| <= |old(m)| + 2)
        && (Disjoint(old(m)) && |old(m)| + 2 <= maxEntries && Lasts(base + length, kind, keepFirstPage) ==>
             r == Returned(true))
      ensures length > 0 && !simulation && !newEntry && !SomeHolds(old(m), base, base + length, overlay) ==>
        m == old(m) && r == if doPanic then Panic else Returned(false)
      ensures length > 0 && !newEntry && overlay != 0 && !Typed(old(m), base, base + length, overlay) ==>
        m == old(m) && r == if doPanic then Panic else Returned(false)
      ensures length > 0 && !newEntry && Merges(overlay) && Tidy(old(m)) && Typed(old(m), base, base + length, overlay) ==>
        && r != Returned(false)
        && (simulation || (|old(m)| + 2 <= maxEntries && Lasts(base + length, kind, keepFirstPage)) ==> r == Returned(true))
      ensures |old(m)| <= maxEntries ==> |m| <= maxEntries
    {
      if length == 0 || (simulation && newEntry) {
        return Returned(true);
      }
      var top := base + length;
      var ok;
      HoldsOverlay(m, base, top, overlay);
      var i := 0;
      while i < |m|
        invariant 0 <= i <= |m| && m == old(m)
        invariant forall j :: 0 <= j < i ==> !Holds(m[j], base, top, overlay)
      {
        if Holds(m[i], base, top, overlay) {
          if simulation {
            return Returned(true);
          }
          ok := Retype(base, length, kind);
          return if ok then Returned(true) else Panic;
        }
        i := i + 1;
      }
      if !newEntry {
        return if doPanic then Panic else Returned(false);
      }
      ok := Retype(base, length, kind);
      return if ok then Returned(true) else Panic;
    }

    /** Top-down allocation of `need` bytes: the last entry with room gives the aligned end of its memory. */
    method AllocTopDown(need: nat, alignment: nat, high: bool, ghost r: Live, ghost live: set<Live>, kind: nat)
        returns (ok: Outcome, base: nat, ghost top: nat)
      requires alignment > 0 && kind != USABLE && Safe(m, live) && r.size == need && r.kind == kind
      modifies this`m
      ensures ok != Returned(false)
      ensures !AnyRoomy(old(m), need, alignment, high) ==> ok == Panic
      ensures AnyRoomy(old(m), need, alignment, high) && need > 0 && |old(m)| + 2 <= maxEntries ==> ok.Returned?
      ensures ok.Returned? ==> Allocates(old(m), base, need, alignment, high)
      ensures ok.Returned? ==> Safe(m, live + {r.(base := base)}) && Misses(live, r.(base := base))
      ensures ok.Returned? ==>
        && TakenFrom(old(m), base, top, need, alignment, high)
        && Retyped(old(m), m, base, top, kind, keepFirstPage) && |m| <= |old(m)| + 2
      ensures |old(m)| <= maxEntries ==> |m| <= maxEntries
    {
      base, top := 0, 0;
      ghost var m0 := m;
      var i := |m| - 1;
      while i >= 0
        invariant -1 <= i < |m| && m == m0
        invariant forall j :: i < j < |m| ==> !Roomy(m[j], need, alignment, high)
      {
        if Roomy(m[i], need, alignment, high) {
          var end := Ceiling(m[i], high);
          base, top := AlignDown(end - need, alignment), end;
          AlignDownFacts(end - need, alignment);
          AllocationFrom(m0, i, base, need, alignment, high);
          ok := Reserve(base, end, kind, i, r.(base := base), live);
          return;
        }
        i := i - 1;
      }
      ok := Panic;
    }

    method Alloc(count: nat, kind: nat, alignment: nat, high: bool, ghost live: set<Live>)
        returns (ok: Outcome, base: nat, ghost top: nat)
      requires alignment > 0 && kind != USABLE && Safe(m, live)
      modifies this`m
      ensures ok != Returned(false)
      ensures !AnyRoomy(old(m), AlignUp(count, alignment), alignment, high) ==> ok == Panic
      ensures AnyRoomy(old(m), AlignUp(count, alignment), alignment, high) && count > 0 && |old(m)| + 2 <= maxEntries ==>
        ok.Returned?
      ensures ok.Returned? ==> Allocates(old(m), base, AlignUp(count, alignment), alignment, high)
      ensures ok.Returned? ==>
        var r := Live(base, count, AlignUp(count, alignment), kind);
        Safe(m, live + {r}) && Misses(live, r)
      ensures ok.Returned? ==>
        && TakenFrom(old(m), base, top, AlignUp(count, alignment), alignment, high)
        && Retyped(old(m), m, base, top, kind, keepFirstPage) && |m| <= |old(m)| + 2
      ensures |old(m)| <= maxEntries ==> |m| <= maxEntries
    {
      AlignUpFacts(count, alignment);
      var need := AlignUp(count, alignment);
      ok, base, top := AllocTopDown(need, alignment, high, Live(0, count, need, kind), live, kind);
    }

    /** Marks [base, top) of usable entry `i` as taken. */
    method Reserve(base: nat, top: nat, kind: nat, i: nat, ghost r: Live, ghost live: set<Live>) returns (ok: Outcome)
      requires Safe(m, live) && i < |m| && m[i].kind == USABLE && m[i].base <= base <= top <= Top(m[i])
      requires r.base == base && base + r.size <= top && r.kind == kind != USABLE
      modifies this`m
      ensures ok != Returned(false)
      ensures base < top && |old(m)| + 2 <= maxEntries ==> ok.Returned?
      ensures ok.Returned? ==> Safe(m, live + {r}) && Misses(live, r)
      ensures ok.Returned? ==> Retyped(old(m), m, base, top, kind, keepFirstPage) && |m| <= |old(m)| + 2
      ensures |old(m)| <= maxEntries ==> |m| <= maxEntries
    {
      ghost var m0 := m;
      forall a: nat | base <= a < top ensures Has(m0, a, USABLE) {
        assert Covers(m0[i], a);
      }
      if base < top {
        assert Holds(m[i], base, base + (top - base), USABLE);
      }
      ok := AllocRange(base, top - base, kind, USABLE, true, false, false);
      if ok == Returned(true) {
        if base < top {
          AllocSafe(m0, m, live, r, top, keepFirstPage);
          assert Has(m, base, kind);
        } else {
          NothingReserved(m, live, r);
        }
        ghost var m1 := m;
        TrimNothing(m1);
        var again := Sanitise(false);
        if again {
          StaysSafe(m1, m, live + {r}, keepFirstPage);
          if base < top {
            RetypedAgain(m0, m1, m, base, top, kind, keepFirstPage);
          } else {
            RetypedNothing(m0, m, base, kind, keepFirstPage);
          }
        } else {
          ok := Panic;
        }
      }
    }

    /** `pmm_free`, for any pointer and size. */
    method Free(base: nat, count: nat) returns (ok: Outcome)
      requires Disjoint(m)
      modifies this`m
      ensures ok != Returned(false) && (ok.Returned? ==> FreedAs(old(m), m, base, count, keepFirstPage))
      ensures CanFree(old(m), base, count, maxEntries, keepFirstPage) ==> ok.Returned?
      ensures |old(m)| <= maxEntries ==> |m| <= maxEntries
    {
      ok := AllocRange(base, AlignUp(count, PAGE), USABLE, 0, false, false, true);
    }

    /** Gives back a live range: the others stay safe exactly when its pages meet none of them. */
    method FreeLive(r: Live, ghost live: set<Live>) returns (ok: Outcome)
      requires Safe(m, live) && r in live
      modifies this`m
      ensures ok != Returned(false)
      ensures CanFree(old(m), r.base, r.count, maxEntries, keepFirstPage) ==> ok.Returned?
      ensures ok.Returned? ==> FreedAs(old(m), m, r.base, r.count, keepFirstPage)
      ensures ok.Returned? ==> (Safe(m, live - {r}) <==> Spares(live, r))
      ensures |old(m)| <= maxEntries ==> |m| <= maxEntries
    {
      ghost var m0 := m;
      ok := Free(r.base, r.count);
      if ok.Returned? {
        FreeSafeExactly(m0, m, live, r, keepFirstPage);
      }
    }

    /** One request of a program that gives back only what it holds. */
    method Serve(q: Request, live: set<Live>) returns (ok: Outcome, d: Done)
      requires Safe(m, live) && WellAsked(q) && forall r :: r in live ==> AlignUp(r.count, PAGE) <= r.size
      modifies this`m
      ensures ok == Panic ==> MayPanic(old(m), q, maxEntries, keepFirstPage)
      ensures ok.Returned? ==> Answers(old(m), m, live, q, d, keepFirstPage) && Safe(m, Changed(live, d))
      ensures ok.Returned? ==> forall r :: r in Changed(live, d) ==> AlignUp(r.count, PAGE) <= r.size
      ensures |old(m)| <= maxEntries ==> |m| <= maxEntries
    {
      d, ok := Ignored, Returned(true);
      match q
      case Take(count, kind, alignment, high) =>
        var base;
        ghost var top;
        ok, base, top := Alloc(count, kind, alignment, high, live);
        FreeFits(count, alignment);
        d := Took(Live(base, count, AlignUp(count, alignment), kind));
      case Give(r) =>
        if r in live {
          FreeSafe(m, live, r);
          ok := FreeLive(r, live);
          d := Gave(r);
        }
    }

    /**
     * Any run of allocations and matching frees, up to the first panic. `maps` are the states it goes
     * through: in each of them the live ranges, which are those taken and not given back, do not meet.
     */
    method Run(requests: seq<Request>) returns (done: seq<Done>, panicked: bool, ghost maps: seq<seq<Entry>>)
      requires Tidy(m) && forall i :: 0 <= i < |requests| ==> WellAsked(requests[i])
      modifies this`m
      ensures Traced(maps, requests, done, keepFirstPage) && maps[0] == old(m)
      ensures !panicked ==> |done| == |requests| && m == maps[|done|]
      ensures panicked ==> |done| < |requests| && MayPanic(maps[|done|], requests[|done|], maxEntries, keepFirstPage)
      ensures |old(m)| <= maxEntries ==> |m| <= maxEntries
    {
      done, panicked, maps := [], false, [m];
      var live: set<Live> := {};
      for i := 0 to |requests|
        invariant Traced(maps, requests, done, keepFirstPage) && |done| == i && maps[0] == old(m) && maps[i] == m
        invariant |old(m)| <= maxEntries ==> |m| <= maxEntries
        invariant live == LiveAfter(done) && forall r :: r in live ==> AlignUp(r.count, PAGE) <= r.size
      {
        var ok, d := Serve(requests[i], live);
        if ok == Panic {
          panicked := true;
          return;
        }
        TracedMore(maps, requests, done, keepFirstPage, m, d);
        done, maps, live := done + [d], maps + [m], Changed(live, d);
      }
    }

    /** Whether [base, top) is wholly memory present in the machine, found by counting overlapping bytes. */
    method CheckUsable(base: nat, top: nat, uefi: bool) returns (r: bool)
      requires base < top && Disjoint(m)
      ensures r <==> forall a: nat :: base <= a < top ==> RamAt(m, a, uefi)
    {
      var remaining := top - base;
      var i := 0;
      while i < |m|
        invariant 0 <= i <= |m| && remaining == top - base - |RamIn(m, i, base, top, uefi)| && remaining > 0
      {
        RamStep(m, i, base, top, uefi);
        RamBounded(m, i + 1, base, top, uefi);
        if IsRam(m[i].kind, uefi) {
          var entryTop := Top(m[i]);
          if FullOverlap(base, top, m[i].base, entryTop) {
            forall a: nat | base <= a < top ensures RamAt(m, a, uefi) {
              assert Covers(m[i], a);
            }
            return true;
          }
          if base <= m[i].base < top || base < entryTop <= top {
            var bottom := if base <= m[i].base < top then m[i].base else base;
            var high := if base < entryTop <= top then entryTop else top;
            remaining := remaining - (high - bottom);
            if remaining == 0 {
              RamCovers(m, i + 1, base, top, uefi);
              return true;
            }
          }
        }
        i := i + 1;
      }
      RamBounded(m, |m|, base, top, uefi);
      if forall a: nat :: base <= a < top ==> RamAt(m, a, uefi) {
        RamAllCounted(m, base, top, uefi);
      }
      r := false;
    }
  }

  lemma NothingReserved(m: seq<Entry>, live: set<Live>, r: Live)
    requires Safe(m, live) && r.size == 0 && r.kind != USABLE
    ensures Safe(m, live + {r})
  {
  }

  lemma StaysSafe(m0: seq<Entry>, m1: seq<Entry>, live: set<Live>, keep: bool)
    requires Safe(m0, live) && Tidy(m1) && FirstPageDropped(m0, m1, keep)
    ensures Safe(m1, live)
  {
  }

  lemma OnePageSafe(m: seq<Entry>)
    requires m == [Entry(0x10_0000, PAGE, USABLE)]
    ensures Safe(m, {})
    ensures forall a: nat :: Has(m, a, USABLE) <==> 0x10_0000 <= a < 0x10_1000
  {
    forall a: nat | 0x10_0000 <= a < 0x10_1000 ensures Has(m, a, USABLE) {
      assert Covers(m[0], a);
    }
  }

  /** After one byte is taken from the top of the page the rest of it can still be allocated from. */
  lemma StillRoom(m0: seq<Entry>, m1: seq<Entry>, a: nat, top: nat)
    requires m0 == [Entry(0x10_0000, PAGE, USABLE)] && TakenFrom(m0, a, top, 1, 1, true)
    requires Retyped(m0, m1, a, top, BOOTLOADER_RECLAIMABLE, false)
    ensures a == 0x10_0FFF && AnyRoomy(m1, 1, 1, true)
  {
    assert AlignDown(top - 1, 1) == top - 1;
    assert Covers(m0[0], 0x10_0000);
    assert Has(m0, 0x10_0000, USABLE);
    assert Has(m1, 0x10_0000, USABLE);
    var i :| 0 <= i < |m1| && Covers(m1[i], 0x10_0000) && m1[i].kind == USABLE;
    var c := Ceiling(m1[i], true);
    assert AlignDown(c - 1, 1) == c - 1;
    assert Roomy(m1[i], 1, 1, true);
  }

  lemma UnitAligned(x: nat)
    ensures AlignUp(x, 1) == x && AlignDown(x, 1) == x
  {
  }

  /** One byte, at any address. */
  method TakeByte(mm: MemMap, ghost live: set<Live>) returns (r: Live, ghost top: nat)
    requires Safe(mm.m, live) && AnyRoomy(mm.m, 1, 1, true) && |mm.m| + 2 <= mm.maxEntries
    modifies mm`m
    ensures r == Live(r.base, 1, 1, BOOTLOADER_RECLAIMABLE) && Safe(mm.m, live + {r}) && Misses(live, r)
    ensures Has(old(mm.m), r.base, USABLE) && |mm.m| <= |old(mm.m)| + 2
    ensures TakenFrom(old(mm.m), r.base, top, 1, 1, true)
    ensures Retyped(old(mm.m), mm.m, r.base, top, BOOTLOADER_RECLAIMABLE, mm.keepFirstPage)
  {
    UnitAligned(1);
    var ok, base;
    ok, base, top := mm.Alloc(1, BOOTLOADER_RECLAIMABLE, 1, true, live);
    r := Live(base, 1, 1, BOOTLOADER_RECLAIMABLE);
  }

  /** Two ranges of one byte in the same page. */
  method TwoBytes() returns (mm: MemMap, low: Live, high: Live)
    ensures fresh(mm) && Safe(mm.m, {low, high}) && |mm.m| + 2 <= mm.maxEntries && !mm.keepFirstPage
    ensures low == Live(low.base, 1, 1, BOOTLOADER_RECLAIMABLE) && high == Live(high.base, 1, 1, BOOTLOADER_RECLAIMABLE)
    ensures 0x10_0000 <= low.base < high.base < 0x10_1000
  {
    mm := new MemMap([Entry(0x10_0000, PAGE, USABLE)], 16, false);
    OnePageSafe(mm.m);
    ghost var m0, top := mm.m, 0;
    UnitAligned(0x10_0FFF);
    assert Roomy(m0[0], 1, 1, true);
    high, top := TakeByte(mm, {});
    StillRoom(m0, mm.m, high.base, top);
    ghost var m1 := mm.m;
    assert {} + {high} == {high};
    low, top := TakeByte(mm, {high});
    assert {high} + {low} == {low, high};
    assert InLive(low, low.base) && InLive(high, high.base) && Has(m0, low.base, USABLE);
  }

  /** The lower one is given back: the upper one is still in use, and its memory is usable again. */
  method OverfreeReached() returns (mm: MemMap, kept: Live)
    ensures fresh(mm) && kept.size > 0 && kept.kind != USABLE && Has(mm.m, kept.base, USABLE) && !Safe(mm.m, {kept})
  {
    var low;
    mm, low, kept := TwoBytes();
    assert AlignUp(1, PAGE) == PAGE;
    var ok := mm.FreeLive(low, {low, kept});
    assert InLive(kept, kept.base);
    assert !Spares({low, kept}, low);
    assert {low, kept} - {low} == {kept};
  }
}
