/**
 * Deleting a file of a FAT32 directory: its entry goes with the slots of its long name, its clusters become
 * free, and every other file on the volume keeps its contents.
 */
module FatRemoval {
  import opened Basics
  import opened FatNames
  import opened FatVolume
  import opened FatData
  import opened FatEntries
  import opened FatDirectory
  import opened FatFiles

  /** The entry in slot `k` and `n` slots before it, from `i` on, are marked deleted, and its chain is gone. */
  ghost predicate Gone(g: Geometry, a: Image, b: Image, dir: nat, i: nat, n: nat, k: nat) {
    && dir in b.chains && IsRun(DirSlots(g, a.disk, a.chains, dir), i, n, k)
    && DirSlots(g, b.disk, b.chains, dir) == Erased(DirSlots(g, a.disk, a.chains, dir), i, n, k)
    && Keeps(g, a, b, {dir, FirstCluster(DirSlots(g, a.disk, a.chains, dir)[k])})
    && ChainAt(b.chains, dir) == ChainAt(a.chains, dir)
  }

  lemma GoneFilesOk(g: Geometry, a: Image, b: Image, dir: nat, i: nat, n: nat, k: nat)
    requires DirOk(g, a, dir) && Gone(g, a, b, dir, i, n, k) && IsFile(DirSlots(g, a.disk, a.chains, dir)[k])
    ensures FilesOk(g, b, dir, DirSlots(g, b.disk, b.chains, dir))
  {
    var was, now := DirSlots(g, a.disk, a.chains, dir), DirSlots(g, b.disk, b.chains, dir);
    forall j | 0 <= j < |now| && IsFile(now[j])
      ensures j != k && now[j] == was[j] && EntryOk(g, b, dir, now[j])
    {
      assert EntryOk(g, a, dir, was[j]) && Separate(was[j], was[k]);
      StillOk(g, a, b, dir, was[j]);
    }
    forall x, y | 0 <= x < |now| && 0 <= y < |now| && x != y && IsFile(now[x]) && IsFile(now[y])
      ensures Separate(now[x], now[y])
    {
      assert Separate(was[x], was[y]);
    }
  }

  /** The directory stays good exactly when the whole long name has gone with its entry. */
  lemma GoneOk(g: Geometry, a: Image, b: Image, dir: nat, i: nat, n: nat, k: nat)
    requires DirOk(g, a, dir) && Gone(g, a, b, dir, i, n, k) && IsFile(DirSlots(g, a.disk, a.chains, dir)[k])
    ensures DirOk(g, b, dir) <==> Alone(DirSlots(g, a.disk, a.chains, dir), i) && n == k - i
  {
    var was := DirSlots(g, a.disk, a.chains, dir);
    DeletedTidy(was, i, n, k);
    ErasedFitting(was, i, n, k);
    GoneFilesOk(g, a, b, dir, i, n, k);
  }

  /** Any other name gives what it gave. */
  lemma GoneOther(g: Geometry, a: Image, b: Image, dir: nat, i: nat, n: nat, k: nat, name: Name, other: Name)
    requires DirOk(g, a, dir) && Gone(g, a, b, dir, i, n, k) && IsFile(DirSlots(g, a.disk, a.chains, dir)[k])
    requires Lookup(DirSlots(g, a.disk, a.chains, dir), name) == Some(k) && !SameName(name, other)
    ensures File(g, b, dir, other) == File(g, a, dir, other)
  {
    var was := DirSlots(g, a.disk, a.chains, dir);
    TidyBefore(was, k);
    DeletedLookup(was, i, n, k, other);
    Distinguished(was, k, name, other);
    FoundLive(was, other);
    OtherChain(g, a, b, dir, k, other);
    SameFile(g, a, b, dir, other);
  }

  /** What deleting a file of this name has done. */
  ghost predicate Deleted(g: Geometry, a: Image, b: Image, dir: nat, name: Name) {
    && OthersSame(g, a, b, dir, name) && Keeps(g, a, b, {dir, StartOf(g, a, dir, name)})
    && Lookup(DirSlots(g, b.disk, b.chains, dir), name) == NextOf(DirSlots(g, a.disk, a.chains, dir), name)
  }

  lemma GoneDeleted(g: Geometry, a: Image, b: Image, dir: nat, i: nat, n: nat, k: nat, name: Name)
    requires DirOk(g, a, dir) && Gone(g, a, b, dir, i, n, k) && IsFile(DirSlots(g, a.disk, a.chains, dir)[k])
    requires Lookup(DirSlots(g, a.disk, a.chains, dir), name) == Some(k)
    ensures Deleted(g, a, b, dir, name)
  {
    var was := DirSlots(g, a.disk, a.chains, dir);
    TidyBefore(was, k);
    DeletedLookup(was, i, n, k, name);
    forall other | !SameName(name, other)
      ensures File(g, b, dir, other) == File(g, a, dir, other)
    {
      GoneOther(g, a, b, dir, i, n, k, name, other);
    }
  }

  lemma GoneStrict(g: Geometry, a: Image, b: Image, dir: nat, i: nat, n: nat, k: nat)
    requires Strict(g, a, dir) && Gone(g, a, b, dir, i, n, k)
    requires Alone(DirSlots(g, a.disk, a.chains, dir), i) && n == k - i
    ensures Strict(g, b, dir)
  {
    var was, starts := DirSlots(g, a.disk, a.chains, dir), DirStarts(g, a.chains, dir);
    ErasedUnambiguous(was, i, n, k);
    StillNeat(starts, starts, was, Erased(was, i, n, k));
  }

  /** The whole long name before slot `k` stands in the cluster that starts at slot `lo`, and is remembered. */
  ghost predicate Whole(slots: seq<Slot>, lo: nat, k: nat) {
    lo <= k <= |slots| && Alone(slots, RunStart(slots, lo, k)) && k - RunStart(slots, lo, k) <= MARKS
  }

  lemma MarksWhole(slots: seq<Slot>, lo: nat, k: nat, marks: seq<nat>)
    requires MarksAt(slots, lo, k, marks)
    ensures Whole(slots, lo, k) <==> Alone(slots, RunStart(slots, lo, k)) && |marks| == k - RunStart(slots, lo, k)
  {
  }

  /** The entry and the remembered slots are marked; every other chain is as it was. */
  method EraseSlots(v: Volume, dir: nat, cluster: nat, offset: nat, marks: seq<nat>, ghost at: Spot, ghost k: nat)
    requires v.Valid() && dir in v.chains && Place(v.g, v.chains[dir], at, cluster, offset, k)
    requires k < |DirSlots(v.g, v.disk[..], v.chains, dir)|
    requires MarksAt(DirSlots(v.g, v.disk[..], v.chains, dir), StartSlot(v.g, v.chains[dir], at.n), k, marks)
    modifies v.disk
    ensures v.Valid() && Keeps(v.g, old(ImageOf(v)), ImageOf(v), {dir})
    ensures var was := old(DirSlots(v.g, v.disk[..], v.chains, dir));
            DirSlots(v.g, v.disk[..], v.chains, dir) ==
            Erased(was, RunStart(was, StartSlot(v.g, v.chains[dir], at.n), k), |marks|, k)
  {
    ghost var a, cs, slots := ImageOf(v), v.chains[dir], DirSlots(v.g, v.disk[..], v.chains, dir);
    ChainSectors(v.g, v.disk[..], v.fat, cs);
    Erase(v, cluster, offset, marks, cs, at, k, slots);
    KeepsOthers(v.g, a, ImageOf(v), v.fat, dir);
  }

  lemma GoneWith(g: Geometry, a: Image, b: Image, c: Image, dir: nat, i: nat, n: nat, k: nat, start: nat)
    requires dir in a.chains && b.chains == a.chains && IsRun(DirSlots(g, a.disk, a.chains, dir), i, n, k) && dir != start
    requires start == FirstCluster(DirSlots(g, a.disk, a.chains, dir)[k])
    requires DirSlots(g, b.disk, b.chains, dir) == Erased(DirSlots(g, a.disk, a.chains, dir), i, n, k)
    requires Keeps(g, a, b, {dir}) && Keeps(g, b, c, {start})
    ensures Gone(g, a, c, dir, i, n, k)
  {
    assert KeepsChain(g, b, c, dir);
    KeepsMore(g, a, b, c, dir, start);
  }

  /** The entry is marked and the chain given back. */
  method Remove(v: Volume, dir: nat, e: Slot, cluster: nat, offset: nat, marks: seq<nat>, ghost at: Spot, ghost k: nat)
    requires v.Valid() && dir in v.chains && EntryOk(v.g, ImageOf(v), dir, e) && dir != FirstCluster(e) && Live(e)
    requires Place(v.g, v.chains[dir], at, cluster, offset, k)
    requires k < |DirSlots(v.g, v.disk[..], v.chains, dir)| && e == DirSlots(v.g, v.disk[..], v.chains, dir)[k]
    requires MarksAt(DirSlots(v.g, v.disk[..], v.chains, dir), StartSlot(v.g, v.chains[dir], at.n), k, marks)
    modifies v, v.disk
    ensures v.Valid() && v.lost == old(v.lost)
    ensures var was := old(DirSlots(v.g, v.disk[..], v.chains, dir));
            Gone(v.g, old(ImageOf(v)), ImageOf(v), dir, RunStart(was, old(StartSlot(v.g, v.chains[dir], at.n)), k), |marks|, k)
    ensures v.fat == Freed(old(v.fat), ChainAt(old(v.chains), FirstCluster(e)))
  {
    ghost var a, was := ImageOf(v), DirSlots(v.g, v.disk[..], v.chains, dir);
    ghost var i := RunStart(was, StartSlot(v.g, v.chains[dir], at.n), k);
    EraseSlots(v, dir, cluster, offset, marks, at, k);
    ghost var b := ImageOf(v);
    Release(v, FirstCluster(e));
    GoneWith(v.g, a, b, ImageOf(v), dir, i, |marks|, k, FirstCluster(e));
  }

  /** The name is no directory's, and the second search comes to its entry or to none. */
  ghost predicate Deletable(g: Geometry, m: Image, dir: nat, name: Name) {
    var r := LookupToDelete(g, m.disk, m.chains, dir, name);
    NoDirectory(g, m, dir, name) && (r.None? || r == Lookup(DirSlots(g, m.disk, m.chains, dir), name))
  }

  /** So it is in a strict directory. */
  lemma StrictDeletable(g: Geometry, m: Image, dir: nat, name: Name)
    requires Strict(g, m, dir)
    ensures LookupToDelete(g, m.disk, m.chains, dir, name) == Lookup(DirSlots(g, m.disk, m.chains, dir), name)
  {
    UncrossedAgree(DirStarts(g, m.chains, dir), DirSlots(g, m.disk, m.chains, dir), name);
  }

  /** Where the cluster of slot `k` starts. */
  ghost predicate ClusterStart(g: Geometry, chains: Chains, dir: nat, lo: nat, k: nat) {
    lo in DirStarts(g, chains, dir) && lo <= k && forall x :: lo < x <= k ==> x !in DirStarts(g, chains, dir)
  }

  lemma PlaceStart(g: Geometry, chains: Chains, dir: nat, at: Spot, cluster: nat, offset: nat, k: nat)
    requires dir in chains && Place(g, chains[dir], at, cluster, offset, k)
    ensures ClusterStart(g, chains, dir, StartSlot(g, chains[dir], at.n), k)
  {
    StartsApart(g, chains[dir], at.n);
    SectorsSplit(g, chains[dir], at.n);
  }

  lemma StrictWhole(g: Geometry, m: Image, dir: nat, lo: nat, k: nat)
    requires Strict(g, m, dir) && lo in DirStarts(g, m.chains, dir) && lo <= k <= |DirSlots(g, m.disk, m.chains, dir)|
    ensures Whole(DirSlots(g, m.disk, m.chains, dir), lo, k)
  {
    NeatRun(DirStarts(g, m.chains, dir), DirSlots(g, m.disk, m.chains, dir), lo, k);
  }

  lemma StrictlyGone(g: Geometry, a: Image, b: Image, dir: nat, i: nat, n: nat, k: nat, name: Name)
    requires DirOk(g, a, dir) && Strict(g, a, dir) && Gone(g, a, b, dir, i, n, k) && IsFile(DirSlots(g, a.disk, a.chains, dir)[k])
    requires Lookup(DirSlots(g, a.disk, a.chains, dir), name) == Some(k) && Deleted(g, a, b, dir, name)
    requires Alone(DirSlots(g, a.disk, a.chains, dir), i) && n == k - i
    ensures DirOk(g, b, dir) && Strict(g, b, dir) && File(g, b, dir, name) == None
  {
    GoneOk(g, a, b, dir, i, n, k);
    GoneStrict(g, a, b, dir, i, n, k);
    NoneNext(DirSlots(g, a.disk, a.chains, dir), name);
  }

  /**
   * `fs_delete` for a file: the entry goes, exactly the file's clusters become free, and every other file is
   * as it was. The directory is good afterwards exactly when the slots of the long name are all in the
   * entry's own cluster and no more than twenty; `lo` is where that cluster starts.
   */
  method DeleteFile(v: Volume, dir: nat, name: Name) returns (ok: bool, ghost lo: nat)
    requires v.Valid() && DirOk(v.g, ImageOf(v), dir) && Deletable(v.g, ImageOf(v), dir, name)
    modifies v, v.disk
    ensures v.Valid() && v.lost == old(v.lost)
    ensures ok <==> old(LookupToDelete(v.g, v.disk[..], v.chains, dir, name)).Some?
    ensures !ok ==> unchanged(v) && unchanged(v.disk)
    ensures ok ==> old(File(v.g, ImageOf(v), dir, name)).Some? && Deleted(v.g, old(ImageOf(v)), ImageOf(v), dir, name)
    ensures ok ==> v.fat == Freed(old(v.fat), ChainAt(old(v.chains), old(StartOf(v.g, ImageOf(v), dir, name))))
    ensures ok ==> var slots := old(DirSlots(v.g, v.disk[..], v.chains, dir));
                   var k := old(Lookup(DirSlots(v.g, v.disk[..], v.chains, dir), name)).value;
                   ClusterStart(v.g, old(v.chains), dir, lo, k) && (DirOk(v.g, ImageOf(v), dir) <==> Whole(slots, lo, k))
    ensures ok && old(Strict(v.g, ImageOf(v), dir)) ==>
              DirOk(v.g, ImageOf(v), dir) && Strict(v.g, ImageOf(v), dir) && File(v.g, ImageOf(v), dir, name) == None
  {
    ghost var a, slots := ImageOf(v), DirSlots(v.g, v.disk[..], v.chains, dir);
    lo := 0;
    NeverFaults(v.g, a, dir, {}, name);
    NeverFaults(v.g, a, dir, DirStarts(v.g, v.chains, dir), name);
    var found, e, cluster, offset, fault, at := FindEntry(v, dir, name);
    ok := false;
    if !found {
      return;
    }
    var marks;
    ok, cluster, offset, marks, fault, at := FindToDelete(v, dir, name);
    if ok {
      ghost var k := Lookup(slots, name).value;
      lo := StartSlot(v.g, v.chains[dir], at.n);
      DeleteFound(v, dir, name, e, cluster, offset, marks, at, k, lo);
    }
  }

  /** The rest of it, once both searches have come to the entry. */
  method DeleteFound(v: Volume, dir: nat, name: Name, e: Slot, cluster: nat, offset: nat, marks: seq<nat>,
                     ghost at: Spot, ghost k: nat, ghost lo: nat)
    requires v.Valid() && DirOk(v.g, ImageOf(v), dir) && NoDirectory(v.g, ImageOf(v), dir, name)
    requires var slots := DirSlots(v.g, v.disk[..], v.chains, dir);
             Lookup(slots, name) == Some(k) && e == slots[k] && MarksAt(slots, lo, k, marks)
    requires Place(v.g, v.chains[dir], at, cluster, offset, k) && lo == StartSlot(v.g, v.chains[dir], at.n)
    modifies v, v.disk
    ensures v.Valid() && v.lost == old(v.lost) && Deleted(v.g, old(ImageOf(v)), ImageOf(v), dir, name)
    ensures v.fat == Freed(old(v.fat), ChainAt(old(v.chains), old(StartOf(v.g, ImageOf(v), dir, name))))
    ensures ClusterStart(v.g, old(v.chains), dir, lo, k)
    ensures DirOk(v.g, ImageOf(v), dir) <==> Whole(old(DirSlots(v.g, v.disk[..], v.chains, dir)), lo, k)
    ensures old(Strict(v.g, ImageOf(v), dir)) ==>
              DirOk(v.g, ImageOf(v), dir) && Strict(v.g, ImageOf(v), dir) && File(v.g, ImageOf(v), dir, name) == None
  {
    ghost var a, slots := ImageOf(v), DirSlots(v.g, v.disk[..], v.chains, dir);
    ghost var i := RunStart(slots, lo, k);
    FoundLive(slots, name);
    assert EntryOk(v.g, a, dir, e);
    NotTheDirectory(v.g, v.fat, a, dir, e);
    PlaceStart(v.g, v.chains, dir, at, cluster, offset, k);
    MarksWhole(slots, lo, k, marks);
    if Strict(v.g, a, dir) {
      StrictWhole(v.g, a, dir, lo, k);
    }
    Remove(v, dir, e, cluster, offset, marks, at, k);
    GoneDeleted(v.g, a, ImageOf(v), dir, i, |marks|, k, name);
    GoneOk(v.g, a, ImageOf(v), dir, i, |marks|, k);
    if Strict(v.g, a, dir) {
      StrictlyGone(v.g, a, ImageOf(v), dir, i, |marks|, k, name);
    }
  }
}
