/**
 * The data of a FAT32 volume: the sectors and bytes of a cluster chain, reading a chain out, writing
 * into it in place, and making it longer.
 */
module FatData {
  import opened Basics
  import opened FatNames
  import opened FatVolume
  import Arith

  // ----- The sectors of a chain -----

  function ClusterSectors(g: Geometry, c: nat): (r: seq<nat>)
    requires c >= 2
    ensures |r| == g.spc
  {
    seq(g.spc, (s: nat) => g.Lba(c) + s)
  }

  ghost predicate Clusters(g: Geometry, cs: seq<nat>) {
    forall i :: 0 <= i < |cs| ==> 2 <= cs[i] < g.Limit()
  }

  /** The sectors of the clusters, in order. */
  function Sectors(g: Geometry, cs: seq<nat>): seq<nat>
    requires Clusters(g, cs)
  {
    if cs == [] then [] else Sectors(g, cs[..|cs| - 1]) + ClusterSectors(g, cs[|cs| - 1])
  }

  lemma SectorsMore(g: Geometry, cs: seq<nat>, c: nat)
    requires Clusters(g, cs) && 2 <= c < g.Limit()
    ensures Clusters(g, cs + [c]) && Sectors(g, cs + [c]) == Sectors(g, cs) + ClusterSectors(g, c)
  {
    assert (cs + [c])[..|cs|] == cs;
  }

  lemma {:induction false} SectorsCount(g: Geometry, cs: seq<nat>)
    requires Clusters(g, cs)
    ensures |Sectors(g, cs)| == |cs| * g.spc
  {
    if cs == [] {
    } else {
      SectorsCount(g, cs[..|cs| - 1]);
      Arith.Distribute(|cs| - 1, 1, g.spc);
    }
  }

  /** Every sector belongs to one of the clusters. */
  lemma {:induction false} SectorOwner(g: Geometry, cs: seq<nat>, i: nat) returns (k: nat)
    requires Clusters(g, cs) && i < |Sectors(g, cs)|
    ensures k < |cs| && g.Lba(cs[k]) <= Sectors(g, cs)[i] < g.Lba(cs[k]) + g.spc
    ensures i == |Sectors(g, cs[..k])| + Sectors(g, cs)[i] - g.Lba(cs[k])
    decreases |cs|
  {
    var n := |cs| - 1;
    if i < |Sectors(g, cs[..n])| {
      k := SectorOwner(g, cs[..n], i);
      assert cs[..n][..k] == cs[..k];
    } else {
      k := n;
    }
  }

  lemma SectorInRange(g: Geometry, cs: seq<nat>, i: nat, sectors: nat)
    requires g.Ok(sectors) && Clusters(g, cs) && i < |Sectors(g, cs)|
    ensures g.DataStart() <= Sectors(g, cs)[i] < sectors
  {
    var k := SectorOwner(g, cs, i);
    ClustersApart(g, cs[k], g.Limit() + 1);
    if cs[k] + 1 < g.Limit() {
      ClustersApart(g, cs[k] + 1, g.Limit());
    }
    ClustersApart(g, cs[k], cs[k] + 1);
  }

  /** Different clusters have different sectors. */
  lemma SectorsApart(g: Geometry, a: seq<nat>, b: seq<nat>, i: nat, j: nat)
    requires Clusters(g, a) && Clusters(g, b) && Apart(a, b) && i < |Sectors(g, a)| && j < |Sectors(g, b)|
    ensures Sectors(g, a)[i] != Sectors(g, b)[j]
  {
    var k := SectorOwner(g, a, i);
    var l := SectorOwner(g, b, j);
    if a[k] < b[l] {
      ClustersApart(g, a[k], b[l]);
    } else {
      ClustersApart(g, b[l], a[k]);
    }
  }

  ghost predicate Distinct(cs: seq<nat>) {
    forall i, j :: 0 <= i < j < |cs| ==> cs[i] != cs[j]
  }

  lemma SectorsDistinct(g: Geometry, cs: seq<nat>, i: nat, j: nat)
    requires Clusters(g, cs) && Distinct(cs) && i < |Sectors(g, cs)| && j < |Sectors(g, cs)| && i != j
    ensures Sectors(g, cs)[i] != Sectors(g, cs)[j]
  {
    var k := SectorOwner(g, cs, i);
    var l := SectorOwner(g, cs, j);
    if cs[k] < cs[l] {
      ClustersApart(g, cs[k], cs[l]);
    } else if cs[l] < cs[k] {
      ClustersApart(g, cs[l], cs[k]);
    }
  }

  // ----- The bytes of a chain -----

  ghost predicate OnDisk(disk: seq<Sector>, lbas: seq<nat>) {
    forall i :: 0 <= i < |lbas| ==> lbas[i] < |disk|
  }

  /** The contents of the sectors, one after the other. */
  function Bytes(disk: seq<Sector>, lbas: seq<nat>): (r: seq<Byte>)
    requires OnDisk(disk, lbas)
    ensures |r| == SECTOR * |lbas|
  {
    if lbas == [] then [] else Bytes(disk, lbas[..|lbas| - 1]) + disk[lbas[|lbas| - 1]]
  }

  lemma {:induction false} BytesAt(disk: seq<Sector>, lbas: seq<nat>, p: nat)
    requires OnDisk(disk, lbas) && p < SECTOR * |lbas|
    ensures Bytes(disk, lbas)[p] == disk[lbas[p / SECTOR]][p % SECTOR]
    decreases |lbas|
  {
    var n := |lbas| - 1;
    if p < SECTOR * n {
      BytesAt(disk, lbas[..n], p);
    }
  }

  lemma {:induction false} BytesPrefix(disk: seq<Sector>, lbas: seq<nat>, n: nat)
    requires OnDisk(disk, lbas) && n <= |lbas|
    ensures Bytes(disk, lbas)[..SECTOR * n] == Bytes(disk, lbas[..n])
    decreases |lbas|
  {
    if n < |lbas| {
      BytesPrefix(disk, lbas[..|lbas| - 1], n);
      assert lbas[..|lbas| - 1][..n] == lbas[..n];
    } else {
      assert lbas[..n] == lbas;
    }
  }

  /** Only the sectors themselves matter. */
  lemma {:induction false} BytesSame(disk: seq<Sector>, other: seq<Sector>, lbas: seq<nat>)
    requires OnDisk(disk, lbas) && OnDisk(other, lbas) && forall i :: 0 <= i < |lbas| ==> other[lbas[i]] == disk[lbas[i]]
    ensures Bytes(other, lbas) == Bytes(disk, lbas)
  {
    if lbas == [] {
    } else {
      BytesSame(disk, other, lbas[..|lbas| - 1]);
    }
  }

  // ----- Reading -----

  /** The chain that starts at `c`, and none for 0. */
  ghost function ChainAt(chains: Chains, c: nat): seq<nat> {
    if c in chains then chains[c] else []
  }

  lemma ChainClusters(g: Geometry, fat: seq<nat>, cs: seq<nat>, sectors: nat)
    requires g.Ok(sectors) && |fat| == g.Limit() && IsChain(fat, cs)
    ensures Clusters(g, cs) && Distinct(cs)
    ensures forall lbas :: lbas == Sectors(g, cs) ==> forall i :: 0 <= i < |lbas| ==> g.DataStart() <= lbas[i] < sectors
  {
    forall i, j | 0 <= i < j < |cs|
      ensures cs[i] != cs[j]
    {
      ChainDistinct(fat, cs, i, j);
    }
    var lbas := Sectors(g, cs);
    forall i | 0 <= i < |lbas|
      ensures g.DataStart() <= lbas[i] < sectors
    {
      SectorInRange(g, cs, i, sectors);
    }
  }

  /** One sector is copied out, as far as the file goes. */
  method ReadSector(disk: array<Sector>, lba: nat, out: array<Byte>, offset: nat, size: nat, ghost lbas: seq<nat>, ghost i: nat)
    returns (next: nat)
    requires OnDisk(disk[..], lbas) && i < |lbas| && lbas[i] == lba && lba < disk.Length
    requires offset == SECTOR * i < size <= SECTOR * |lbas| && size < out.Length
    requires out[..offset] == Bytes(disk[..], lbas)[..offset]
    modifies out
    ensures next == Min(offset + SECTOR, size) && out[..next] == Bytes(disk[..], lbas)[..next]
  {
    var toCopy := SECTOR;
    if offset + toCopy > size {
      toCopy := size - offset;
    }
    ghost var all := Bytes(disk[..], lbas);
    forall p | offset <= p < offset + toCopy
      ensures all[p] == disk[lba][p - offset]
    {
      BytesAt(disk[..], lbas, p);
    }
    for j := 0 to toCopy
      invariant out[..offset + j] == all[..offset + j]
    {
      out[offset + j] := disk[lba][j];
    }
    next := offset + toCopy;
  }

  /** One cluster of a file is copied out. */
  method ReadCluster(v: Volume, cluster: nat, out: array<Byte>, offset: nat, size: nat, ghost lbas: seq<nat>, ghost at: nat)
    returns (next: nat)
    requires v.g.Ok(v.disk.Length) && 2 <= cluster < v.g.Limit() && OnDisk(v.disk[..], lbas)
    requires at + v.g.spc <= |lbas| && lbas[at..at + v.g.spc] == ClusterSectors(v.g, cluster)
    requires offset == Min(SECTOR * at, size) && size <= SECTOR * |lbas| && size < out.Length
    requires out[..offset] == Bytes(v.disk[..], lbas)[..offset]
    modifies out
    ensures next == Min(SECTOR * (at + v.g.spc), size) && out[..next] == Bytes(v.disk[..], lbas)[..next]
  {
    var lba := v.g.Lba(cluster);
    next := offset;
    var s := 0;
    while s < v.g.spc && next < size
      invariant 0 <= s <= v.g.spc && next <= size
      invariant next == Min(SECTOR * (at + s), size) && out[..next] == Bytes(v.disk[..], lbas)[..next]
    {
      assert lbas[at + s] == lbas[at..at + v.g.spc][s] == lba + s;
      next := ReadSector(v.disk, lba + s, out, next, size, lbas, at + s);
      s := s + 1;
    }
  }

  /** A walk along a chain has come to its `n`-th cluster, or to its end. */
  ghost predicate At(fat: seq<nat>, cs: seq<nat>, n: nat, cluster: nat) {
    if cs == [] then n == cluster == 0
    else IsChain(fat, cs) && (if n < |cs| then cluster == cs[n] else n == |cs| && cluster == Next(fat, cs[|cs| - 1]))
  }

  method Follow(v: Volume, cluster: nat, ghost cs: seq<nat>, ghost n: nat) returns (next: nat)
    requires Mirrored(v.g, v.disk[..], v.fat) && At(v.fat, cs, n, cluster) && 2 <= cluster < END_MARKS
    ensures n < |cs| && At(v.fat, cs, n + 1, next)
  {
    assert n < |cs| - 1 ==> Next(v.fat, cs[n]) == cs[n + 1];
    next := v.GetEntry(cluster);
  }

  /** The reading loop of `fat_read_file`. */
  method ReadChain(v: Volume, start: nat, size: nat) returns (out: array<Byte>)
    requires v.Valid() && (start == 0 || start in v.chains)
    requires size <= |Contents(v.g, v.disk[..], v.chains, start)|
    ensures fresh(out) && out.Length == size + 1 && out[size] == 0
    ensures out[..size] == Contents(v.g, v.disk[..], v.chains, start)[..size]
  {
    out := new Byte[size + 1](_ => 0);
    ghost var cs := ChainAt(v.chains, start);
    if start in v.chains {
      ChainClusters(v.g, v.fat, cs, v.disk.Length);
    }
    CopyOut(v, start, out, size, cs);
    out[size] := 0;
  }

  method CopyOut(v: Volume, start: nat, out: array<Byte>, size: nat, ghost cs: seq<nat>)
    requires Mirrored(v.g, v.disk[..], v.fat) && At(v.fat, cs, 0, start)
    requires Clusters(v.g, cs) && OnDisk(v.disk[..], Sectors(v.g, cs))
    requires size <= SECTOR * |Sectors(v.g, cs)| && size < out.Length
    modifies out
    ensures out[..size] == Bytes(v.disk[..], Sectors(v.g, cs))[..size]
  {
    ghost var n := 0;
    var offset: nat, cluster: nat := 0, start;
    while 2 <= cluster < END_MARKS && offset < size
      invariant At(v.fat, cs, n, cluster) && n <= |cs|
      invariant CopiedOut(v.g, v.disk[..], cs, n, out[..], offset, size)
      decreases |cs| - n
    {
      offset := CopyCluster(v, cluster, out, offset, size, cs, n);
      cluster := Follow(v, cluster, cs, n);
      n := n + 1;
    }
    assert cs[..|cs|] == cs;
    assert out[..size] == out[..][..size];
  }

  /** The first `n` clusters have been copied out, as far as the file goes. */
  ghost predicate CopiedOut(g: Geometry, disk: seq<Sector>, cs: seq<nat>, n: nat, out: seq<Byte>, offset: nat, size: nat) {
    && n <= |cs| && Clusters(g, cs) && OnDisk(disk, Sectors(g, cs)) && size <= SECTOR * |Sectors(g, cs)| && size < |out|
    && offset == Min(SECTOR * |Sectors(g, cs[..n])|, size) && out[..offset] == Bytes(disk, Sectors(g, cs))[..offset]
  }

  method CopyCluster(v: Volume, cluster: nat, out: array<Byte>, offset: nat, size: nat, ghost cs: seq<nat>, ghost n: nat)
    returns (next: nat)
    requires v.g.Ok(v.disk.Length) && n < |cs| && cluster == cs[n]
    requires CopiedOut(v.g, v.disk[..], cs, n, out[..], offset, size)
    modifies out
    ensures CopiedOut(v.g, v.disk[..], cs, n + 1, out[..], next, size)
  {
    SectorsSplit(v.g, cs, n);
    assert out[..offset] == out[..][..offset];
    next := ReadCluster(v, cluster, out, offset, size, Sectors(v.g, cs), |Sectors(v.g, cs[..n])|);
    assert out[..][..next] == out[..next];
  }

  /** Everything the clusters of a chain hold. */
  ghost function Contents(g: Geometry, disk: seq<Sector>, chains: Chains, start: nat): seq<Byte> {
    var cs := ChainAt(chains, start);
    if Clusters(g, cs) && OnDisk(disk, Sectors(g, cs)) then Bytes(disk, Sectors(g, cs)) else []
  }

  /** Where the sectors of the `n`-th cluster are among those of the chain. */
  lemma {:induction false} SectorsSplit(g: Geometry, cs: seq<nat>, n: nat)
    requires Clusters(g, cs) && n < |cs|
    ensures var at := |Sectors(g, cs[..n])|;
            && at + g.spc <= |Sectors(g, cs)| && Sectors(g, cs)[at..at + g.spc] == ClusterSectors(g, cs[n])
            && Sectors(g, cs)[..at] == Sectors(g, cs[..n]) && |Sectors(g, cs[..n + 1])| == at + g.spc
    decreases |cs|
  {
    var m := |cs| - 1;
    assert cs[..n + 1][..n] == cs[..n];
    if n < m {
      SectorsSplit(g, cs[..m], n);
      assert cs[..m][..n] == cs[..n] && cs[..m][..n + 1] == cs[..n + 1];
    } else {
      assert cs[..n + 1] == cs;
    }
  }

  // ----- Writing into a chain -----

  /** A sector that starts at `pos` of the file, with the bytes of `data` that fall in it. */
  function Overlaid(sector: Sector, pos: nat, offset: nat, data: seq<Byte>): Sector {
    seq(SECTOR, (j: nat) requires j < SECTOR =>
      if offset <= pos + j < offset + |data| then data[pos + j - offset] else sector[j])
  }

  /** The first `i` sectors carry the data that falls in them; nothing else has changed. */
  ghost predicate Written(was: seq<Sector>, now: seq<Sector>, lbas: seq<nat>, i: nat, offset: nat, data: seq<Byte>) {
    && |was| == |now| && i <= |lbas| && OnDisk(was, lbas)
    && (forall j :: 0 <= j < i ==> now[lbas[j]] == Overlaid(was[lbas[j]], SECTOR * j, offset, data))
    && (forall s :: 0 <= s < |was| && s !in lbas[..i] ==> now[s] == was[s])
  }

  /** The part of `fat_write_file` that writes one sector. */
  method WriteSector(disk: array<Sector>, lba: nat, pos: nat, offset: nat, data: seq<Byte>)
    requires lba < disk.Length && pos < offset + |data|
    modifies disk
    ensures disk[..] == old(disk[..])[lba := Overlaid(old(disk[lba]), pos, offset, data)]
  {
    var sector := disk[lba];
    var end := pos + SECTOR;
    var writeStart := if offset > pos then offset - pos else 0;
    var writeEnd := if offset + |data| < end then offset + |data| - pos else SECTOR;
    if writeEnd > writeStart {
      var from := pos + writeStart - offset;
      var piece := data[from..from + (writeEnd - writeStart)];
      disk[lba] := sector[..writeStart] + piece + sector[writeEnd..];
      assert disk[lba] == Overlaid(sector, pos, offset, data);
    } else {
      assert Overlaid(sector, pos, offset, data) == sector;
    }
  }

  lemma WrittenMore(was: seq<Sector>, now: seq<Sector>, next: seq<Sector>, lbas: seq<nat>, i: nat, offset: nat, data: seq<Byte>)
    requires Written(was, now, lbas, i, offset, data) && i < |lbas| && Distinct(lbas)
    requires next == now[lbas[i] := Overlaid(now[lbas[i]], SECTOR * i, offset, data)]
    ensures Written(was, next, lbas, i + 1, offset, data)
  {
    assert lbas[i] !in lbas[..i];
    assert lbas[..i + 1] == lbas[..i] + [lbas[i]];
  }

  method WriteCluster(v: Volume, cluster: nat, pos: nat, offset: nat, data: seq<Byte>,
                      ghost was: seq<Sector>, ghost lbas: seq<nat>, ghost at: nat) returns (next: nat, ghost i: nat)
    requires 2 <= cluster && at + v.g.spc <= |lbas| && lbas[at..at + v.g.spc] == ClusterSectors(v.g, cluster)
    requires pos == SECTOR * at && Distinct(lbas) && Written(was, v.disk[..], lbas, at, offset, data)
    modifies v.disk
    ensures Written(was, v.disk[..], lbas, i, offset, data) && next == SECTOR * i
    ensures i <= at + v.g.spc && (i == at + v.g.spc || next >= offset + |data|)
  {
    var lba := v.g.Lba(cluster);
    next, i := pos, at;
    var s := 0;
    while s < v.g.spc && next < offset + |data|
      invariant 0 <= s <= v.g.spc && i == at + s && next == SECTOR * i
      invariant Written(was, v.disk[..], lbas, i, offset, data)
    {
      assert lbas[i] == lbas[at..at + v.g.spc][s] == lba + s;
      ghost var now := v.disk[..];
      WriteSector(v.disk, lba + s, next, offset, data);
      WrittenMore(was, now, v.disk[..], lbas, i, offset, data);
      next, s, i := next + SECTOR, s + 1, i + 1;
    }
  }

  /** Once the sectors up to the end are written, the file is its old start followed by the data. */
  lemma WrittenBytes(was: seq<Sector>, now: seq<Sector>, lbas: seq<nat>, i: nat, offset: nat, data: seq<Byte>)
    requires Written(was, now, lbas, i, offset, data) && Distinct(lbas)
    requires offset + |data| <= SECTOR * i
    ensures OnDisk(now, lbas) && Bytes(now, lbas)[..offset + |data|] == Bytes(was, lbas)[..offset] + data
  {
    var a, b := Bytes(now, lbas), Bytes(was, lbas);
    forall p | 0 <= p < offset + |data|
      ensures a[p] == if p < offset then b[p] else data[p - offset]
    {
      BytesAt(now, lbas, p);
      BytesAt(was, lbas, p);
    }
  }

  ghost predicate SameTables(g: Geometry, a: seq<Sector>, b: seq<Sector>) {
    |a| == |b| && forall s :: g.fatStart <= s < g.DataStart() && s < |a| ==> a[s] == b[s]
  }

  lemma MirroredKept(g: Geometry, a: seq<Sector>, b: seq<Sector>, fat: seq<nat>)
    requires Mirrored(g, a, fat) && SameTables(g, a, b)
    ensures Mirrored(g, b, fat)
  {
    forall i | 0 <= i < g.fatCount
      ensures CopyIs(g, b, i, fat)
    {
      assert CopyIs(g, a, i, fat);
      Arith.MulLe(0, i, g.fatSize);
      forall c | 0 <= c < |fat|
        ensures EntryIs(g, b, i, c, fat[c])
      {
        assert EntryIs(g, a, i, c, fat[c]);
        EntryOnDisk(g, |a|, i, c);
      }
    }
  }

  /** The sectors of a chain: on the disk, after the tables, no two the same. */
  ghost predicate DataSectors(g: Geometry, disk: seq<Sector>, lbas: seq<nat>) {
    Distinct(lbas) && forall i :: 0 <= i < |lbas| ==> g.DataStart() <= lbas[i] < |disk|
  }

  lemma ChainSectors(g: Geometry, disk: seq<Sector>, fat: seq<nat>, cs: seq<nat>)
    requires Mirrored(g, disk, fat) && IsChain(fat, cs)
    ensures Clusters(g, cs) && DataSectors(g, disk, Sectors(g, cs)) && OnDisk(disk, Sectors(g, cs))
  {
    ChainClusters(g, fat, cs, |disk|);
    var lbas := Sectors(g, cs);
    forall i, j | 0 <= i < j < |lbas|
      ensures lbas[i] != lbas[j]
    {
      SectorsDistinct(g, cs, i, j);
    }
  }

  lemma WrittenTables(g: Geometry, was: seq<Sector>, now: seq<Sector>, lbas: seq<nat>, i: nat, offset: nat, data: seq<Byte>)
    requires Written(was, now, lbas, i, offset, data) && DataSectors(g, was, lbas)
    ensures SameTables(g, was, now)
  {
    forall s | g.fatStart <= s < g.DataStart() && s < |was|
      ensures s !in lbas[..i]
    {
    }
  }

  /** The writing has come to cluster `n` and sector `i`, or to the end of the data. */
  ghost predicate Writing(g: Geometry, was: seq<Sector>, now: seq<Sector>, cs: seq<nat>, n: nat, i: nat,
                          offset: nat, data: seq<Byte>)
  {
    && n <= |cs| && Clusters(g, cs) && DataSectors(g, was, Sectors(g, cs))
    && offset + |data| <= SECTOR * |Sectors(g, cs)| && Written(was, now, Sectors(g, cs), i, offset, data)
    && (i == |Sectors(g, cs[..n])| || SECTOR * i >= offset + |data|)
  }

  method WriteNext(v: Volume, cur: nat, pos: nat, offset: nat, data: seq<Byte>,
                   ghost was: seq<Sector>, ghost cs: seq<nat>, ghost n: nat, ghost i: nat) returns (next: nat, ghost j: nat)
    requires Mirrored(v.g, was, v.fat) && n < |cs| && cur == cs[n] && pos == SECTOR * i < offset + |data|
    requires Writing(v.g, was, v.disk[..], cs, n, i, offset, data)
    modifies v.disk
    ensures Mirrored(v.g, v.disk[..], v.fat) && next == SECTOR * j
    ensures Writing(v.g, was, v.disk[..], cs, n + 1, j, offset, data)
  {
    ghost var lbas := Sectors(v.g, cs);
    SectorsSplit(v.g, cs, n);
    next, j := WriteCluster(v, cur, pos, offset, data, was, lbas, i);
    WrittenTables(v.g, was, v.disk[..], lbas, j, offset, data);
    MirroredKept(v.g, was, v.disk[..], v.fat);
  }

  /** Only the sectors of the chain differ, and they hold what they should. */
  ghost predicate Replaced(g: Geometry, was: seq<Sector>, now: seq<Sector>, cs: seq<nat>, offset: nat, data: seq<Byte>) {
    && |was| == |now| && Clusters(g, cs) && OnDisk(was, Sectors(g, cs)) && OnDisk(now, Sectors(g, cs))
    && (forall s :: 0 <= s < |was| && s !in Sectors(g, cs) ==> now[s] == was[s])
    && offset + |data| <= SECTOR * |Sectors(g, cs)|
    && Bytes(now, Sectors(g, cs))[..offset + |data|] == Bytes(was, Sectors(g, cs))[..offset] + data
  }

  lemma WritingDone(g: Geometry, was: seq<Sector>, now: seq<Sector>, cs: seq<nat>, n: nat, i: nat, offset: nat, data: seq<Byte>)
    requires Writing(g, was, now, cs, n, i, offset, data) && (n == |cs| || SECTOR * i >= offset + |data|)
    ensures Replaced(g, was, now, cs, offset, data)
  {
    assert n == |cs| ==> cs[..n] == cs;
    var lbas := Sectors(g, cs);
    WrittenBytes(was, now, lbas, i, offset, data);
    assert forall s :: s in lbas[..i] ==> s in lbas;
  }

  /** The writing loop of `fat_write_file`. */
  method WriteChain(v: Volume, first: nat, offset: nat, data: seq<Byte>, ghost cs: seq<nat>)
    requires Mirrored(v.g, v.disk[..], v.fat) && cs != [] && At(v.fat, cs, 0, first)
    requires Clusters(v.g, cs) && DataSectors(v.g, v.disk[..], Sectors(v.g, cs))
    requires offset + |data| <= SECTOR * |Sectors(v.g, cs)|
    modifies v.disk
    ensures Mirrored(v.g, v.disk[..], v.fat) && Replaced(v.g, old(v.disk[..]), v.disk[..], cs, offset, data)
  {
    ghost var was, n, i := v.disk[..], 0, 0;
    var pos: nat, cur: nat := 0, first;
    while 2 <= cur < END_MARKS && pos < offset + |data|
      invariant Mirrored(v.g, v.disk[..], v.fat) && 0 <= n <= |cs| && At(v.fat, cs, n, cur)
      invariant 0 <= i && pos == SECTOR * i && Writing(v.g, was, v.disk[..], cs, n, i, offset, data)
      decreases |cs| - n
    {
      pos, i := WriteNext(v, cur, pos, offset, data, was, cs, n, i);
      cur := Follow(v, cur, cs, n);
      n := n + 1;
    }
    WritingDone(v.g, was, v.disk[..], cs, n, i, offset, data);
  }

  // ----- Making a chain long enough -----

  /** No chain but `h` has changed, come or gone. */
  ghost predicate OthersKept(was: Chains, now: Chains, h: nat) {
    && (forall k :: k in was && k != h ==> k in now && now[k] == was[k])
    && (forall k :: k in now && k != h ==> k in was)
  }

  method LastOf(v: Volume, start: nat) returns (last: nat)
    requires v.Valid() && start in v.chains
    ensures last == v.chains[start][|v.chains[start]| - 1]
  {
    ghost var cs, n := v.chains[start], 0;
    last := start;
    while true
      invariant 0 <= n < |cs| && last == cs[n]
      decreases |cs| - n
    {
      var next := v.GetEntry(last);
      assert n < |cs| - 1 ==> Next(v.fat, cs[n]) == cs[n + 1];
      if next >= END_MARKS {
        break;
      }
      last, n := next, n + 1;
    }
  }

  method CountClusters(v: Volume, start: nat) returns (count: nat)
    requires v.Valid() && start in v.chains
    ensures count == |v.chains[start]|
  {
    ghost var cs := v.chains[start];
    count := 0;
    var cur: nat := start;
    while 2 <= cur < END_MARKS
      invariant count <= |cs| && At(v.fat, cs, count, cur)
      decreases |cs| - count
    {
      cur := Follow(v, cur, cs, count);
      count := count + 1;
    }
  }

  lemma JoinedNew(chains: Chains, h: nat, c: nat)
    requires h in chains && c !in chains
    ensures Joined(chains[c := [c]], h, c) == chains[h := chains[h] + [c]]
  {
  }

  /** The chain `h` has grown at its end to `last`; no other chain has changed. */
  ghost predicate Extended(was: Chains, now: Chains, h: nat, last: nat) {
    && OthersKept(was, now, h) && h in was && h in now && was[h] <= now[h]
    && now[h] != [] && last == now[h][|now[h]| - 1]
  }

  ghost predicate Untouched(was: seq<Sector>, chains: Chains, now: seq<Sector>, chains': Chains) {
    now == was && chains' == chains
  }

  /** One more cluster at the end of the chain `h`. */
  method ExtendChain(v: Volume, last: nat, ghost h: nat) returns (ok: bool, c: nat)
    requires v.Valid() && Extended(v.chains, v.chains, h, last)
    modifies v, v.disk
    ensures v.Valid() && v.lost == old(v.lost) && SameData(v.g, old(v.disk[..]), v.disk[..])
    ensures ok ==> v.chains == old(v.chains)[h := old(v.chains)[h] + [c]] && v.Spare() == old(v.Spare()) - 1
    ensures !ok ==> Untouched(old(v.disk[..]), old(v.chains), v.disk[..], v.chains)
    ensures ok <==> old(v.Spare()) > 0
  {
    ghost var before := v.chains;
    ok, c := v.AllocCluster();
    if ok {
      assert v.chains[h] == before[h] && c != h;
      JoinedNew(before, h, c);
      Link(v, last, c, h);
    }
  }

  /** A chain of one cluster is joined to the end of the chain `h`. */
  method Link(v: Volume, last: nat, c: nat, ghost h: nat)
    requires v.Valid() && h in v.chains && c in v.chains && h != c && v.chains[c] == [c]
    requires last == v.chains[h][|v.chains[h]| - 1]
    modifies v, v.disk
    ensures v.Valid() && v.lost == old(v.lost) && SameData(v.g, old(v.disk[..]), v.disk[..])
    ensures v.chains == Joined(old(v.chains), h, c) && v.Spare() == old(v.Spare())
  {
    LinkSound(v.fat, v.chains, v.lost, h, c);
    UnusedSame(v.fat, v.g.total, last, c);
    v.SetEntry(last, c);
    v.chains := Joined(v.chains, h, c);
  }

  lemma ExtendedMore(was: Chains, now: Chains, h: nat, last: nat, c: nat)
    requires Extended(was, now, h, last)
    ensures Extended(was, now[h := now[h] + [c]], h, c)
  {
  }

  function Missing(existing: nat, needed: nat): nat {
    if existing < needed then needed - existing else 0
  }

  /** Clusters are added to the chain `h` until the count is reached. */
  method ExtendTo(v: Volume, end: nat, existing: nat, needed: nat, ghost h: nat) returns (ok: bool, last: nat)
    requires v.Valid() && Extended(v.chains, v.chains, h, end) && existing <= |v.chains[h]|
    modifies v, v.disk
    ensures v.Valid() && v.lost == old(v.lost) && SameData(v.g, old(v.disk[..]), v.disk[..])
    ensures Extended(old(v.chains), v.chains, h, last) && (ok ==> |v.chains[h]| >= needed)
    ensures ok <==> Missing(existing, needed) <= old(v.Spare())
  {
    var count := existing;
    last := end;
    while count < needed
      invariant v.Valid() && v.lost == old(v.lost) && SameData(v.g, old(v.disk[..]), v.disk[..])
      invariant Extended(old(v.chains), v.chains, h, last) && count <= |v.chains[h]|
      invariant existing <= count && v.Spare() + (count - existing) == old(v.Spare())
      invariant count <= needed || count == existing
    {
      ghost var before := v.chains;
      var c;
      ok, c := ExtendChain(v, last, h);
      if !ok {
        return;
      }
      ExtendedMore(old(v.chains), before, h, last, c);
      last, count := c, count + 1;
    }
    ok := true;
  }

  /** Where the chain of a file starts and ends: a new cluster for a file that has none. */
  method Begin(v: Volume, start: nat) returns (ok: bool, first: nat, last: nat, existing: nat)
    requires v.Valid() && (start == 0 || start in v.chains)
    modifies v, v.disk
    ensures v.Valid() && v.lost == old(v.lost) && SameData(v.g, old(v.disk[..]), v.disk[..])
    ensures !ok ==> v.chains == old(v.chains)
    ensures ok <==> (if start == 0 then 1 else 0) <= old(v.Spare())
    ensures ok ==> v.Spare() == old(v.Spare()) - if start == 0 then 1 else 0
    ensures ok ==> Extended(v.chains, v.chains, first, last) && existing == |ChainAt(old(v.chains), start)| <= |v.chains[first]|
    ensures ok && start != 0 ==> first == start && v.chains == old(v.chains)
    ensures ok && start == 0 ==> first !in old(v.chains) && v.chains == old(v.chains)[first := [first]]
  {
    ok, first, last, existing := true, start, 0, 0;
    if start == 0 {
      assert 0 !in v.chains;
      ok, first := v.AllocCluster();
      last := first;
    } else {
      last := LastOf(v, start);
      existing := CountClusters(v, start);
    }
  }

  method MarkEnd(v: Volume, last: nat, ghost h: nat)
    requires v.Valid() && h in v.chains && last == v.chains[h][|v.chains[h]| - 1]
    modifies v, v.disk
    ensures v.Valid() && v.lost == old(v.lost) && SameData(v.g, old(v.disk[..]), v.disk[..]) && v.chains == old(v.chains)
    ensures v.Spare() == old(v.Spare())
  {
    UnusedSame(v.fat, v.g.total, last, END_OF_CHAIN);
    EndSound(v.fat, v.chains, v.lost, h);
    v.SetEntry(last, END_OF_CHAIN);
  }

  /** A chain of at least `needed` clusters that starts with the old one; no other chain has changed. */
  ghost predicate Allocated(was: Chains, now: Chains, start: nat, first: nat, needed: nat) {
    && OthersKept(was, now, first) && first in now && |now[first]| >= needed
    && (if start == 0 then first !in was else first == start && start in was && was[start] <= now[start])
  }

  /** Every chain but the one at `start` is as it was, and that one begins as it did. */
  ghost predicate Spilled(was: Chains, now: Chains, start: nat) {
    && (forall h :: h in was && h != start ==> h in now && now[h] == was[h])
    && (start != 0 ==> start in was && start in now && was[start] <= now[start])
  }

  lemma SpilledAfter(was: Chains, mid: Chains, now: Chains, start: nat, first: nat, last: nat)
    requires Extended(mid, now, first, last) && (start == 0 || start in was)
    requires if start == 0 then first !in was && mid == was[first := [first]] else first == start && mid == was
    ensures Spilled(was, now, start)
  {
  }

  /**
   * How many clusters it takes to have `needed` of them: a file with a chain takes those that it lacks. A
   * file without one takes one more than it needs, since its first cluster is not counted.
   */
  ghost function Takes(chains: Chains, start: nat, needed: nat): nat {
    if start == 0 then needed + 1 else Missing(|ChainAt(chains, start)|, needed)
  }

  /** The allocating half of `fat_write_file`. Clusters that were taken are not given back when it fails. */
  method Allocate(v: Volume, start: nat, needed: nat) returns (ok: bool, first: nat)
    requires v.Valid() && (start == 0 || start in v.chains)
    modifies v, v.disk
    ensures v.Valid() && v.lost == old(v.lost) && SameData(v.g, old(v.disk[..]), v.disk[..])
    ensures ok <==> Takes(old(v.chains), start, needed) <= old(v.Spare())
    ensures ok ==> Allocated(old(v.chains), v.chains, start, first, needed)
    ensures !ok ==> Spilled(old(v.chains), v.chains, start)
  {
    var last, existing;
    ok, first, last, existing := Begin(v, start);
    if !ok {
      return;
    }
    ghost var middle := v.chains;
    ok, last := ExtendTo(v, last, existing, needed, first);
    if !ok {
      SpilledAfter(old(v.chains), middle, v.chains, start, first, last);
      return;
    }
    MarkEnd(v, last, first);
  }
}
