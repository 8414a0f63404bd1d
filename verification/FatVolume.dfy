/**
 * A FAT32 volume on a disk of 512-byte sectors: the file allocation table with its copies, and the
 * cluster chains it describes. Every operation keeps the clusters divided into free ones, pairwise
 * disjoint chains and those that were neither, with all the copies of the table equal.
 */
module FatVolume {
  import opened Basics
  import opened FatNames
  import Arith

  const SECTOR := 512
  const PER_SECTOR := 128
  const END_OF_CHAIN := 0x0FFF_FFFF
  const END_MARKS := 0x0FFF_FFF8
  const MASK := 0x1000_0000
  const WORD := 0x1_0000_0000

  type Sector = s: seq<Byte> | |s| == 512 witness seq(512, _ => 0)

  // ----- Little-endian words -----

  function Le32(s: seq<Byte>, p: nat): (v: nat)
    requires p + 4 <= |s|
    ensures v < WORD
  {
    var b0: nat, b1: nat, b2: nat, b3: nat := s[p], s[p + 1], s[p + 2], s[p + 3];
    b0 + 256 * (b1 + 256 * (b2 + 256 * b3))
  }

  function SetLe32(s: seq<Byte>, p: nat, v: nat): (r: seq<Byte>)
    requires p + 4 <= |s| && v < WORD
    ensures |r| == |s| && forall i :: 0 <= i < |s| && !(p <= i < p + 4) ==> r[i] == s[i]
  {
    var v1 := v / 256;
    var v2 := v1 / 256;
    s[p := v % 256][p + 1 := v1 % 256][p + 2 := v2 % 256][p + 3 := v2 / 256]
  }

  lemma Le32RoundTrip(s: seq<Byte>, p: nat, v: nat)
    requires p + 4 <= |s| && v < WORD
    ensures Le32(SetLe32(s, p, v), p) == v
  {
    var v1 := v / 256;
    var v2 := v1 / 256;
    assert v == v % 256 + 256 * v1 && v1 == v1 % 256 + 256 * v2 && v2 == v2 % 256 + 256 * (v2 / 256);
  }

  // ----- Where things are on the disk -----

  datatype Geometry = Geometry(fatStart: nat, fatSize: nat, fatCount: nat, spc: nat, total: nat) {
    /** The first sector of copy `i` of the table. */
    function Table(i: nat): nat {
      fatStart + i * fatSize
    }

    function DataStart(): nat {
      Table(fatCount)
    }

    /** The first sector of a cluster. */
    function Lba(c: nat): nat
      requires c >= 2
    {
      DataStart() + (c - 2) * spc
    }

    /** One past the largest cluster number. */
    function Limit(): nat {
      total + 2
    }

    ghost predicate Ok(sectors: nat) {
      && fatCount >= 1 && spc >= 1 && Limit() <= END_MARKS
      && Limit() <= PER_SECTOR * fatSize && Lba(Limit()) <= sectors
    }
  }

  lemma TablesApart(g: Geometry, i: nat, j: nat)
    requires i < j
    ensures g.Table(i) + g.fatSize <= g.Table(j)
  {
    Arith.MulLe(i + 1, j, g.fatSize);
  }

  lemma ClustersApart(g: Geometry, c: nat, d: nat)
    requires 2 <= c < d
    ensures g.DataStart() <= g.Lba(c) && g.Lba(c) + g.spc <= g.Lba(d)
  {
    Arith.MulLe(c - 1, d - 2, g.spc);
  }

  /** The entry for cluster `c` in copy `i`, as it is stored. */
  function Stored(g: Geometry, disk: seq<Sector>, i: nat, c: nat): (v: nat)
    requires g.Table(i) + c / PER_SECTOR < |disk|
    ensures v < WORD
  {
    Le32(disk[g.Table(i) + c / PER_SECTOR], 4 * (c % PER_SECTOR))
  }

  lemma ByteOffset(c: nat)
    ensures c * 4 / SECTOR == c / PER_SECTOR && c * 4 % SECTOR == 4 * (c % PER_SECTOR)
  {
  }

  /** On the disk it is four bytes, the lowest first, `4 * c` bytes into the copy. */
  lemma StoredBytes(g: Geometry, disk: seq<Sector>, i: nat, c: nat)
    requires g.fatStart + c * 4 / 512 + i * g.fatSize < |disk|
    ensures g.Table(i) + c / PER_SECTOR == g.fatStart + c * 4 / 512 + i * g.fatSize && c * 4 % 512 <= 508
    ensures
      var s, p := disk[g.fatStart + c * 4 / 512 + i * g.fatSize], c * 4 % 512;
      Stored(g, disk, i, c) ==
        s[p] as nat + 0x100 * s[p + 1] as nat + 0x1_0000 * s[p + 2] as nat + 0x100_0000 * s[p + 3] as nat
  {
    ByteOffset(c);
  }

  /** Cluster 2 comes right after the last copy of the table, and each cluster right after the one before. */
  lemma ClustersFollow(g: Geometry, c: nat)
    requires c >= 2
    ensures g.Lba(2) == g.fatStart + g.fatCount * g.fatSize && g.Lba(c + 1) == g.Lba(c) + g.spc
  {
    Arith.Distribute(c - 2, 1, g.spc);
  }

  /** Every copy of the table is `fat`. */
  ghost predicate Mirrored(g: Geometry, disk: seq<Sector>, fat: seq<nat>) {
    && g.Ok(|disk|) && |fat| == g.Limit()
    && forall i :: 0 <= i < g.fatCount ==> CopyIs(g, disk, i, fat)
  }

  ghost predicate CopyIs(g: Geometry, disk: seq<Sector>, i: nat, fat: seq<nat>) {
    forall c :: 0 <= c < |fat| ==> EntryIs(g, disk, i, c, fat[c])
  }

  ghost predicate EntryIs(g: Geometry, disk: seq<Sector>, i: nat, c: nat, v: nat) {
    g.Table(i) + c / PER_SECTOR < |disk| && Stored(g, disk, i, c) == v
  }

  lemma EntryOnDisk(g: Geometry, sectors: nat, i: nat, c: nat)
    requires g.Ok(sectors) && i < g.fatCount && c < g.Limit()
    ensures g.Table(i) <= g.Table(i) + c / PER_SECTOR < g.Table(i + 1) <= g.DataStart() <= sectors
  {
    TablesApart(g, i, i + 1);
    if i + 1 < g.fatCount {
      TablesApart(g, i + 1, g.fatCount);
    }
    ClustersApart(g, 2, g.Limit() + 1);
    Arith.MulLe(0, g.total, g.spc);
  }

  /** The disk with one entry of one copy rewritten. */
  function WithEntry(g: Geometry, disk: seq<Sector>, i: nat, c: nat, v: nat): (r: seq<Sector>)
    requires g.Table(i) + c / PER_SECTOR < |disk| && v < WORD
    ensures |r| == |disk|
  {
    var s := g.Table(i) + c / PER_SECTOR;
    disk[s := SetLe32(disk[s], 4 * (c % PER_SECTOR), v)]
  }

  lemma OneEntry(g: Geometry, disk: seq<Sector>, i: nat, c: nat, v: nat, d: nat, was: nat)
    requires g.Table(i) + c / PER_SECTOR < |disk| && v < WORD && EntryIs(g, disk, i, d, was)
    ensures EntryIs(g, WithEntry(g, disk, i, c, v), i, d, if c == d then v else was)
  {
    var s, p := g.Table(i) + c / PER_SECTOR, 4 * (c % PER_SECTOR);
    Le32RoundTrip(disk[s], p, v);
    if d / PER_SECTOR == c / PER_SECTOR && d != c {
      var q := 4 * (d % PER_SECTOR);
      assert q + 4 <= p || p + 4 <= q;
      assert Le32(SetLe32(disk[s], p, v), q) == Le32(disk[s], q);
    }
  }

  lemma CopyWritten(g: Geometry, disk: seq<Sector>, i: nat, c: nat, v: nat, fat: seq<nat>)
    requires g.Table(i) + c / PER_SECTOR < |disk| && v < WORD && c < |fat| && CopyIs(g, disk, i, fat)
    ensures CopyIs(g, WithEntry(g, disk, i, c, v), i, fat[c := v])
  {
    var after, disk' := fat[c := v], WithEntry(g, disk, i, c, v);
    forall d | 0 <= d < |fat|
      ensures EntryIs(g, disk', i, d, after[d])
    {
      OneEntry(g, disk, i, c, v, d, fat[d]);
    }
  }

  lemma OtherCopy(g: Geometry, disk: seq<Sector>, i: nat, c: nat, v: nat, j: nat, fat: seq<nat>)
    requires g.Ok(|disk|) && i < g.fatCount && j < g.fatCount && i != j && v < WORD
    requires |fat| == g.Limit() && c < g.Limit() && CopyIs(g, disk, j, fat)
    requires g.Table(i) + c / PER_SECTOR < |disk|
    ensures CopyIs(g, WithEntry(g, disk, i, c, v), j, fat)
  {
    EntryOnDisk(g, |disk|, i, c);
    TablesApart(g, if i < j then i else j, if i < j then j else i);
    forall d | 0 <= d < |fat|
      ensures EntryIs(g, WithEntry(g, disk, i, c, v), j, d, fat[d])
    {
      EntryOnDisk(g, |disk|, j, d);
    }
  }

  /** The first `i` copies are `now`, the others still `was`. */
  ghost predicate Halfway(g: Geometry, disk: seq<Sector>, i: nat, was: seq<nat>, now: seq<nat>) {
    && (forall j :: 0 <= j < i ==> CopyIs(g, disk, j, now))
    && (forall j :: i <= j < g.fatCount ==> CopyIs(g, disk, j, was))
  }

  lemma HalfwayNext(g: Geometry, disk: seq<Sector>, i: nat, c: nat, v: nat, was: seq<nat>, now: seq<nat>)
    requires g.Ok(|disk|) && i < g.fatCount && c < g.Limit() && v < WORD && |was| == g.Limit() && now == was[c := v]
    requires Halfway(g, disk, i, was, now) && g.Table(i) + c / PER_SECTOR < |disk|
    ensures Halfway(g, WithEntry(g, disk, i, c, v), i + 1, was, now)
    ensures SameData(g, disk, WithEntry(g, disk, i, c, v))
  {
    var after := WithEntry(g, disk, i, c, v);
    CopyWritten(g, disk, i, c, v, was);
    forall j | 0 <= j < i
      ensures CopyIs(g, after, j, now)
    {
      OtherCopy(g, disk, i, c, v, j, now);
    }
    forall j | i + 1 <= j < g.fatCount
      ensures CopyIs(g, after, j, was)
    {
      OtherCopy(g, disk, i, c, v, j, was);
    }
    EntryOnDisk(g, |disk|, i, c);
    Arith.MulLe(0, i, g.fatSize);
  }

  // ----- Chains -----

  /** What follows cluster `c`: the upper four bits of an entry do not count. */
  function Next(fat: seq<nat>, c: nat): nat
    requires c < |fat|
  {
    fat[c] % MASK
  }

  ghost predicate IsChain(fat: seq<nat>, cs: seq<nat>) {
    && cs != [] && (forall i :: 0 <= i < |cs| ==> 2 <= cs[i] < |fat|)
    && (forall i :: 0 <= i < |cs| - 1 ==> Next(fat, cs[i]) == cs[i + 1])
    && Next(fat, cs[|cs| - 1]) >= END_MARKS
  }

  /** A cluster is a chain of its own exactly when its entry, without the upper four bits, is an end mark. */
  lemma EndMarks(fat: seq<nat>, c: nat)
    ensures IsChain(fat, [c]) <==> 2 <= c < |fat| && fat[c] % 0x1000_0000 >= 0x0FFF_FFF8
  {
  }

  /** A chain that ends does not meet itself. */
  lemma {:induction false} ChainDistinct(fat: seq<nat>, cs: seq<nat>, i: nat, j: nat)
    requires IsChain(fat, cs) && |fat| <= END_MARKS && i < j < |cs|
    ensures cs[i] != cs[j]
    decreases |cs| - j
  {
    assert Next(fat, cs[i]) == cs[i + 1];
    if j >= |cs| - 1 {
    } else {
      assert Next(fat, cs[j]) == cs[j + 1];
      ChainDistinct(fat, cs, i + 1, j + 1);
    }
  }

  /** From one cluster there is one chain. */
  lemma {:induction false} ChainUnique(fat: seq<nat>, a: seq<nat>, b: seq<nat>)
    requires IsChain(fat, a) && IsChain(fat, b) && a[0] == b[0] && |fat| <= END_MARKS
    ensures a == b
    decreases |a|
  {
    assert |a| > 1 ==> Next(fat, a[0]) == a[1];
    assert |b| > 1 ==> Next(fat, b[0]) == b[1];
    if |a| > 1 {
      ChainUnique(fat, a[1..], b[1..]);
      assert a == [a[0]] + a[1..] && b == [b[0]] + b[1..];
    }
  }

  ghost predicate Apart(a: seq<nat>, b: seq<nat>) {
    forall i, j :: 0 <= i < |a| && 0 <= j < |b| ==> a[i] != b[j]
  }

  type Chains = map<nat, seq<nat>>

  /** Every chain, under its first cluster; no cluster is in two of them. */
  ghost predicate Sound(fat: seq<nat>, chains: Chains) {
    && (forall h :: h in chains ==> IsChain(fat, chains[h]) && chains[h][0] == h)
    && (forall h, k :: h in chains && k in chains && h != k ==> Apart(chains[h], chains[k]))
  }

  ghost predicate Owned(chains: Chains, c: nat) {
    exists h :: h in chains && c in chains[h]
  }

  /** A chain is untouched by a change to clusters it does not contain. */
  lemma ChainStays(fat: seq<nat>, next: seq<nat>, cs: seq<nat>)
    requires IsChain(fat, cs) && |fat| == |next| && forall i :: 0 <= i < |cs| ==> next[cs[i]] == fat[cs[i]]
    ensures IsChain(next, cs)
  {
  }

  /** A free cluster is in no chain. */
  lemma FreeNotOwned(fat: seq<nat>, chains: Chains, c: nat)
    requires Sound(fat, chains) && c < |fat| && Next(fat, c) == 0
    ensures !Owned(chains, c)
  {
    forall h | h in chains
      ensures c !in chains[h]
    {
      var cs := chains[h];
      forall i | 0 <= i < |cs|
        ensures cs[i] != c
      {
        assert i < |cs| - 1 ==> Next(fat, cs[i]) == cs[i + 1];
      }
    }
  }

  /** The free clusters are exactly those in no chain, apart from `lost`, which are neither. */
  ghost predicate Partitioned(fat: seq<nat>, chains: Chains, lost: set<nat>) {
    Sound(fat, chains) && forall c :: 2 <= c < |fat| ==> (c in lost <==> IsLost(fat, chains, c))
  }

  ghost predicate IsLost(fat: seq<nat>, chains: Chains, c: nat)
    requires c < |fat|
  {
    Next(fat, c) != 0 && !Owned(chains, c)
  }

  // Taking a free cluster.

  lemma AllocSound(fat: seq<nat>, chains: Chains, lost: set<nat>, c: nat)
    requires Partitioned(fat, chains, lost) && 2 <= c < |fat| && Next(fat, c) == 0
    ensures Partitioned(fat[c := END_OF_CHAIN], chains[c := [c]], lost) && c !in chains
  {
    assert c in chains ==> c in chains[c];
    FreeNotOwned(fat, chains, c);
    var next, more := fat[c := END_OF_CHAIN], chains[c := [c]];
    forall h | h in chains
      ensures IsChain(next, chains[h]) && Apart(chains[h], [c]) && Apart([c], chains[h])
    {
      assert c !in chains[h];
      ChainStays(fat, next, chains[h]);
    }
    forall d | 2 <= d < |fat|
      ensures d in lost <==> IsLost(next, more, d)
    {
      if Owned(chains, d) {
        var h :| h in chains && d in chains[h];
        assert h in more && d in more[h];
      }
      assert d == c ==> c in more && d in more[c];
    }
  }

  // Giving back a chain.

  function Freed(fat: seq<nat>, cs: seq<nat>): seq<nat> {
    seq(|fat|, c requires 0 <= c < |fat| => if c in cs then 0 else fat[c])
  }

  lemma FreeOwned(chains: Chains, h: nat, d: nat)
    requires h in chains && forall k :: k in chains && k != h ==> Apart(chains[h], chains[k])
    ensures Owned(chains - {h}, d) <==> Owned(chains, d) && d !in chains[h]
  {
    var fewer := chains - {h};
    if Owned(chains, d) && d !in chains[h] {
      var k :| k in chains && d in chains[k];
      assert k in fewer && d in fewer[k];
    }
    if Owned(fewer, d) {
      var k :| k in fewer && d in fewer[k];
      assert k in chains && d in chains[k] && Apart(chains[h], chains[k]);
    }
  }

  lemma FreeChains(fat: seq<nat>, chains: Chains, h: nat)
    requires Sound(fat, chains) && h in chains
    ensures Sound(Freed(fat, chains[h]), chains - {h})
  {
    var next, fewer := Freed(fat, chains[h]), chains - {h};
    forall k | k in fewer
      ensures IsChain(next, fewer[k])
    {
      assert Apart(chains[h], chains[k]);
      ChainStays(fat, next, chains[k]);
    }
  }

  lemma FreeLost(fat: seq<nat>, chains: Chains, h: nat, d: nat)
    requires Sound(fat, chains) && h in chains && d < |fat|
    ensures IsLost(Freed(fat, chains[h]), chains - {h}, d) <==> IsLost(fat, chains, d)
  {
    FreeOwned(chains, h, d);
    assert d in chains[h] ==> Owned(chains, d);
  }

  lemma FreeSound(fat: seq<nat>, chains: Chains, lost: set<nat>, h: nat)
    requires Partitioned(fat, chains, lost) && h in chains
    ensures Partitioned(Freed(fat, chains[h]), chains - {h}, lost)
  {
    FreeChains(fat, chains, h);
    var next := Freed(fat, chains[h]);
    forall d | 2 <= d < |fat|
      ensures d in lost <==> IsLost(next, chains - {h}, d)
    {
      FreeLost(fat, chains, h, d);
    }
  }

  // Joining a chain of one cluster to the end of another.

  function Joined(chains: Chains, h: nat, c: nat): Chains
    requires h in chains
  {
    (chains - {c})[h := chains[h] + [c]]
  }

  lemma JoinOwned(chains: Chains, h: nat, c: nat, d: nat)
    requires h in chains && c in chains && h != c && chains[c] == [c]
    ensures Owned(Joined(chains, h, c), d) <==> Owned(chains, d)
  {
    var joined := Joined(chains, h, c);
    assert joined[h] == chains[h] + [c];
    if Owned(chains, d) {
      var k :| k in chains && d in chains[k];
      assert d in joined[if k == c then h else k];
    }
    if Owned(joined, d) {
      var k :| k in joined && d in joined[k];
      assert d in chains[if k == h && d == c then c else k];
    }
  }

  lemma JoinChain(fat: seq<nat>, cs: seq<nat>, c: nat)
    requires IsChain(fat, cs) && |fat| <= END_MARKS && IsChain(fat, [c]) && c !in cs
    ensures IsChain(fat[cs[|cs| - 1] := c], cs + [c])
  {
    forall i | 0 <= i < |cs| - 1
      ensures cs[i] != cs[|cs| - 1]
    {
      ChainDistinct(fat, cs, i, |cs| - 1);
    }
    var next, more := fat[cs[|cs| - 1] := c], cs + [c];
    forall i | 0 <= i < |more| - 1
      ensures Next(next, more[i]) == more[i + 1]
    {
      assert i < |cs| - 1 ==> Next(fat, cs[i]) == cs[i + 1];
    }
  }

  lemma LinkChains(fat: seq<nat>, chains: Chains, h: nat, c: nat)
    requires Sound(fat, chains) && |fat| <= END_MARKS
    requires h in chains && c in chains && h != c && chains[c] == [c]
    ensures Sound(fat[chains[h][|chains[h]| - 1] := c], Joined(chains, h, c))
  {
    var cs, joined := chains[h], Joined(chains, h, c);
    var next := fat[cs[|cs| - 1] := c];
    assert Apart(cs, chains[c]);
    assert c !in cs;
    JoinChain(fat, cs, c);
    forall k | k in joined && k != h
      ensures IsChain(next, joined[k]) && Apart(joined[k], joined[h]) && Apart(joined[h], joined[k])
    {
      assert Apart(chains[k], cs) && Apart(chains[k], chains[c]);
      ChainStays(fat, next, chains[k]);
    }
  }

  lemma LinkSound(fat: seq<nat>, chains: Chains, lost: set<nat>, h: nat, c: nat)
    requires Partitioned(fat, chains, lost) && |fat| <= END_MARKS
    requires h in chains && c in chains && h != c && chains[c] == [c]
    ensures Partitioned(fat[chains[h][|chains[h]| - 1] := c], Joined(chains, h, c), lost)
  {
    LinkChains(fat, chains, h, c);
    var last := chains[h][|chains[h]| - 1];
    var next := fat[last := c];
    forall d | 2 <= d < |fat|
      ensures d in lost <==> IsLost(next, Joined(chains, h, c), d)
    {
      JoinOwned(chains, h, c, d);
      assert d == last ==> d in chains[h];
    }
  }

  // Marking the last cluster as the end.

  lemma EndChain(fat: seq<nat>, cs: seq<nat>)
    requires IsChain(fat, cs) && |fat| <= END_MARKS
    ensures IsChain(fat[cs[|cs| - 1] := END_OF_CHAIN], cs)
  {
    var last := cs[|cs| - 1];
    var next := fat[last := END_OF_CHAIN];
    forall i | 0 <= i < |cs| - 1
      ensures Next(next, cs[i]) == cs[i + 1]
    {
      ChainDistinct(fat, cs, i, |cs| - 1);
      assert Next(fat, cs[i]) == cs[i + 1];
    }
  }

  lemma EndChains(fat: seq<nat>, chains: Chains, h: nat)
    requires Sound(fat, chains) && |fat| <= END_MARKS && h in chains
    ensures Sound(fat[chains[h][|chains[h]| - 1] := END_OF_CHAIN], chains)
  {
    var next := fat[chains[h][|chains[h]| - 1] := END_OF_CHAIN];
    EndChain(fat, chains[h]);
    forall k | k in chains && k != h
      ensures IsChain(next, chains[k])
    {
      assert Apart(chains[h], chains[k]);
      ChainStays(fat, next, chains[k]);
    }
  }

  lemma EndSound(fat: seq<nat>, chains: Chains, lost: set<nat>, h: nat)
    requires Partitioned(fat, chains, lost) && |fat| <= END_MARKS && h in chains
    ensures Partitioned(fat[chains[h][|chains[h]| - 1] := END_OF_CHAIN], chains, lost)
  {
    EndChains(fat, chains, h);
    var last := chains[h][|chains[h]| - 1];
    var next := fat[last := END_OF_CHAIN];
    assert Owned(chains, last) by {
      assert last in chains[h];
    }
    forall d | 2 <= d < |fat|
      ensures d in lost <==> IsLost(next, chains, d)
    {
      assert d in lost <==> IsLost(fat, chains, d);
    }
  }

  // ----- How many clusters are free -----

  /** The free clusters below `n`. */
  ghost function Unused(fat: seq<nat>, n: nat): set<nat> {
    set c: nat | 2 <= c < n && c < |fat| && Next(fat, c) == 0
  }

  lemma UnusedTaken(fat: seq<nat>, n: nat, c: nat, v: nat)
    requires c in Unused(fat, n) && v % MASK != 0
    ensures |Unused(fat[c := v], n)| == |Unused(fat, n)| - 1
  {
    assert Unused(fat[c := v], n) == Unused(fat, n) - {c};
  }

  lemma UnusedSame(fat: seq<nat>, n: nat, c: nat, v: nat)
    requires c < |fat| && Next(fat, c) != 0 && v % MASK != 0
    ensures Unused(fat[c := v], n) == Unused(fat, n)
  {
  }

  lemma AnyUnused(fat: seq<nat>, n: nat)
    requires n <= |fat|
    ensures |Unused(fat, n)| > 0 <==> exists d :: 2 <= d < n && Next(fat, d) == 0
  {
    if exists d :: 2 <= d < n && Next(fat, d) == 0 {
      var d :| 2 <= d < n && Next(fat, d) == 0;
      assert d in Unused(fat, n);
    } else {
      assert Unused(fat, n) == {};
    }
  }

  /** Giving a chain back frees as many clusters as it has below `n`. */
  lemma UnusedFreed(fat: seq<nat>, cs: seq<nat>, n: nat)
    requires IsChain(fat, cs)
    ensures |Unused(Freed(fat, cs), n)| == |Unused(fat, n)| + |Below(cs, n)|
  {
    forall i | 0 <= i < |cs|
      ensures Next(fat, cs[i]) != 0
    {
      assert i < |cs| - 1 ==> Next(fat, cs[i]) == cs[i + 1];
    }
    assert Unused(Freed(fat, cs), n) == Unused(fat, n) + Below(cs, n);
    assert Unused(fat, n) !! Below(cs, n);
  }

  /** The clusters of a chain below `n`. */
  ghost function Below(cs: seq<nat>, n: nat): set<nat> {
    set c | c in cs && c < n
  }

  // ----- The volume -----

  /** Nothing outside the tables differs. */
  ghost predicate SameData(g: Geometry, a: seq<Sector>, b: seq<Sector>) {
    |a| == |b| && forall s :: 0 <= s < |a| && !(g.fatStart <= s < g.DataStart()) ==> a[s] == b[s]
  }

  class Volume {
    const g: Geometry
    const disk: array<Sector>
    ghost var fat: seq<nat>
    ghost var chains: Chains
    ghost var lost: set<nat>

    ghost predicate Valid()
      reads this, disk
    {
      Mirrored(g, disk[..], fat) && Partitioned(fat, chains, lost)
    }

    /** How many clusters `fat_alloc_cluster` can still hand out. */
    ghost function Spare(): nat
      reads this
    {
      |Unused(fat, g.total)|
    }

    /** A volume as `fs_init` leaves it: where things are on the disk, with the chains that its table describes. */
    constructor (geometry: Geometry, sectors: array<Sector>, ghost table: seq<nat>, ghost described: Chains, ghost neither: set<nat>)
      requires Mirrored(geometry, sectors[..], table) && Partitioned(table, described, neither)
      ensures Valid() && g == geometry && disk == sectors && fat == table && chains == described && lost == neither
    {
      g, disk := geometry, sectors;
      fat, chains, lost := table, described, neither;
    }

    /** `fat_get_entry`. */
    method GetEntry(c: nat) returns (v: nat)
      requires Mirrored(g, disk[..], fat) && c < g.Limit()
      ensures v == Next(fat, c) == fat[c] % 0x1000_0000
    {
      EntryOnDisk(g, disk.Length, 0, c);
      ByteOffset(c);
      assert g.Table(0) == g.fatStart;
      var s, p := g.fatStart + c * 4 / SECTOR, c * 4 % SECTOR;
      v := Le32(disk[s], p) % MASK;
      assert CopyIs(g, disk[..], 0, fat);
      assert EntryIs(g, disk[..], 0, c, fat[c]);
    }

    /** `fat_set_entry`: every copy is rewritten, and nothing but that entry. */
    method SetEntry(c: nat, v: nat)
      requires Mirrored(g, disk[..], fat) && c < g.Limit() && v < WORD
      modifies disk, `fat
      ensures Mirrored(g, disk[..], fat) && fat == old(fat)[c := v] && SameData(g, old(disk[..]), disk[..])
    {
      ghost var was, now := fat, fat[c := v];
      for i := 0 to g.fatCount
        invariant SameData(g, old(disk[..]), disk[..])
        invariant Halfway(g, disk[..], i, was, now)
      {
        SetCopy(i, c, v, was, now);
      }
      fat := now;
    }

    method SetCopy(i: nat, c: nat, v: nat, ghost was: seq<nat>, ghost now: seq<nat>)
      requires g.Ok(disk.Length) && i < g.fatCount && c < g.Limit() && v < WORD
      requires |was| == g.Limit() && now == was[c := v]
      requires Halfway(g, disk[..], i, was, now)
      modifies disk
      ensures SameData(g, old(disk[..]), disk[..]) && Halfway(g, disk[..], i + 1, was, now)
    {
      EntryOnDisk(g, disk.Length, i, c);
      ByteOffset(c);
      var s := g.fatStart + c * 4 / SECTOR + i * g.fatSize;
      ghost var before := disk[..];
      disk[s] := SetLe32(disk[s], c * 4 % SECTOR, v);
      assert disk[..] == WithEntry(g, before, i, c, v);
      HalfwayNext(g, before, i, c, v, was, now);
    }

    /** `fat_alloc_cluster`: the first free cluster becomes a chain of its own. */
    method AllocCluster() returns (ok: bool, c: nat)
      requires Valid()
      modifies this, disk
      ensures Valid() && lost == old(lost) && SameData(g, old(disk[..]), disk[..])
      ensures ok <==> exists d :: 2 <= d < g.total && Next(old(fat), d) == 0
      ensures ok <==> old(Spare()) > 0
      ensures ok ==> Spare() == old(Spare()) - 1
      ensures ok ==> 2 <= c < g.total && Next(old(fat), c) == 0 && forall d :: 2 <= d < c ==> Next(old(fat), d) != 0
      ensures ok ==> c !in old(chains) && fat == old(fat)[c := END_OF_CHAIN] && chains == old(chains)[c := [c]]
      ensures !ok ==> fat == old(fat) && chains == old(chains) && disk[..] == old(disk[..])
    {
      AnyUnused(fat, g.total);
      c := 2;
      while c < g.total
        invariant 2 <= c && (c == 2 || c <= g.total) && Valid() && unchanged(this) && unchanged(disk)
        invariant forall d :: 2 <= d < c ==> Next(fat, d) != 0
      {
        var v := GetEntry(c);
        if v == 0 {
          AllocSound(fat, chains, lost, c);
          UnusedTaken(fat, g.total, c, END_OF_CHAIN);
          SetEntry(c, END_OF_CHAIN);
          chains := chains[c := [c]];
          return true, c;
        }
        c := c + 1;
      }
      return false, c;
    }

    /** `fat_free_chain`: the walk ends, and exactly the clusters of the chain become free. */
    method FreeChain(start: nat)
      requires Valid() && start in chains
      modifies this, disk
      ensures Valid() && lost == old(lost) && SameData(g, old(disk[..]), disk[..])
      ensures fat == Freed(old(fat), old(chains)[start]) && chains == old(chains) - {start}
    {
      ghost var was, cs := fat, chains[start];
      ghost var n := 0;
      var cluster := start;
      while 2 <= cluster < END_MARKS
        invariant 0 <= n <= |cs| && Mirrored(g, disk[..], fat) && SameData(g, old(disk[..]), disk[..])
        invariant chains == old(chains) && lost == old(lost)
        invariant cluster == if n < |cs| then cs[n] else Next(was, cs[|cs| - 1])
        invariant fat == Freed(was, cs[..n])
        decreases |cs| - n
      {
        FreeNext(was, cs, n);
        var next := GetEntry(cluster);
        SetEntry(cluster, 0);
        cluster := next;
        n := n + 1;
      }
      assert cs[..|cs|] == cs;
      FreeSound(was, chains, lost, start);
      chains := chains - {start};
    }
  }

  /** The next cluster of a chain has not been given back yet. */
  lemma FreeNext(fat: seq<nat>, cs: seq<nat>, n: nat)
    requires IsChain(fat, cs) && n < |cs| && |fat| <= END_MARKS
    ensures cs[n] < |fat| && Freed(fat, cs[..n])[cs[n]] == fat[cs[n]]
    ensures Freed(fat, cs[..n])[cs[n] := 0] == Freed(fat, cs[..n + 1])
    ensures n < |cs| - 1 ==> Next(fat, cs[n]) == cs[n + 1]
  {
    forall i | 0 <= i < n
      ensures cs[i] != cs[n]
    {
      ChainDistinct(fat, cs, i, n);
    }
    assert cs[..n + 1] == cs[..n] + [cs[n]];
  }
}
