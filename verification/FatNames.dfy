/**
 * The names of directory entries: the 11-byte short form, and the long form that is spread over slots
 * of 13 characters written from the last to the first ("FAT Long Directory Entries" in version 1.03 of
 * the Microsoft FAT32 specification). Names are the bytes of a C string before its NUL.
 */
module FatNames {
  import opened Basics

  type Name = seq<Byte>

  const SPACE: Byte := 32
  const DOT: Byte := 46

  // ----- Case -----

  function Upper(c: Byte): Byte {
    if 97 <= c <= 122 then c - 32 else c
  }

  function Lower(c: Byte): Byte {
    if 65 <= c <= 90 then c + 32 else c
  }

  function UpperAll(s: Name): Name {
    seq(|s|, i requires 0 <= i < |s| => Upper(s[i]))
  }

  /** The same name but for the case of its letters. */
  predicate SameName(a: Name, b: Name) {
    |a| == |b| && forall i :: 0 <= i < |a| ==> Lower(a[i]) == Lower(b[i])
  }

  /** The same byte, or the two cases of one of the letters A to Z. */
  predicate SameLetter(a: Byte, b: Byte) {
    a == b || (65 <= a <= 90 && b == a + 32) || (65 <= b <= 90 && a == b + 32)
  }

  lemma SameNameTransitive(a: Name, b: Name, c: Name)
    requires SameName(a, b)
    ensures SameName(a, c) <==> SameName(b, c)
  {
  }

  method NameEquals(a: Name, b: Name) returns (same: bool)
    ensures same <==> SameName(a, b)
    ensures same <==> |a| == |b| && forall i :: 0 <= i < |a| ==> SameLetter(a[i], b[i])
  {
    var i := 0;
    while i < |a| && i < |b|
      invariant i <= |a| && i <= |b|
      invariant forall k :: 0 <= k < i ==> Lower(a[k]) == Lower(b[k]) && SameLetter(a[k], b[k])
    {
      if Lower(a[i]) != Lower(b[i]) {
        return false;
      }
      i := i + 1;
    }
    return i == |a| && i == |b|;
  }

  // ----- Short names -----

  /** Where the first `c` from `i` on is, or the length. */
  function IndexFrom(s: Name, c: Byte, i: nat): (n: nat)
    requires i <= |s|
    ensures i <= n <= |s| && (n < |s| ==> s[n] == c) && forall k :: i <= k < n ==> s[k] != c
    decreases |s| - i
  {
    if i == |s| || s[i] == c then i else IndexFrom(s, c, i + 1)
  }

  function IndexOf(s: Name, c: Byte): (n: nat)
    ensures n <= |s| && (n < |s| ==> s[n] == c) && forall k :: 0 <= k < n ==> s[k] != c
  {
    IndexFrom(s, c, 0)
  }

  lemma IndexOfUnique(s: Name, c: Byte, n: nat)
    requires n <= |s| && (n < |s| ==> s[n] == c) && forall i :: 0 <= i < n ==> s[i] != c
    ensures IndexOf(s, c) == n
  {
  }

  /** The part of a name that goes to the first 8 bytes. */
  function Stem(name: Name): Name {
    name[..Min(IndexOf(name, DOT), 8)]
  }

  /** The part that goes to the last 3: what follows the stem, without the dot if there is one there. */
  function Extension(name: Name): Name {
    var i := |Stem(name)|;
    var rest := if i < |name| && name[i] == DOT then name[i + 1..] else name[i..];
    rest[..Min(|rest|, 3)]
  }

  function Pad(s: Name, n: nat): (r: Name)
    requires |s| <= n
    ensures |r| == n
  {
    s + seq(n - |s|, _ => SPACE)
  }

  function Short(name: Name): (s: Name)
    ensures |s| == 11
  {
    Pad(UpperAll(Stem(name)), 8) + Pad(UpperAll(Extension(name)), 3)
  }

  function NoSpaces(s: Name): Name {
    if s == [] then [] else
    var n := |s| - 1;
    NoSpaces(s[..n]) + (if s[n] == SPACE then [] else [s[n]])
  }

  /** The name a short entry is listed under. */
  function Listed(s: Name): Name
    requires |s| == 11
  {
    WithExtension(s[..8][..IndexOf(s[..8], SPACE)], NoSpaces(s[8..]))
  }

  /** A dot only when there is an extension. */
  function WithExtension(stem: Name, ext: Name): Name {
    stem + (if ext == [] then [] else [DOT] + ext)
  }

  lemma WithMore(stem: Name, ext: Name, c: Byte)
    ensures WithExtension(stem, ext + [c]) == (if ext == [] then stem + [DOT] else WithExtension(stem, ext)) + [c]
  {
  }

  /** A name of up to 8 characters and an extension of 1 to 3, or none; no blanks. */
  predicate Is83(name: Name) {
    var dot := IndexOf(name, DOT);
    && dot <= 8 && SPACE !in name
    && (dot < |name| ==> 1 <= |name| - dot - 1 <= 3)
  }

  /** The first loop of `name_to_short`. */
  method StemInto(name: Name, out: array<Byte>) returns (i: nat)
    requires out.Length == 11 && out[..] == Pad([], 11)
    modifies out
    ensures i == |Stem(name)| && out[..] == Pad(UpperAll(Stem(name)), 8) + Pad([], 3)
  {
    i := 0;
    while i < |name| && name[i] != DOT && i < 8
      invariant i <= Min(IndexOf(name, DOT), 8)
      invariant forall k :: 0 <= k < i ==> out[k] == Upper(name[k])
      invariant forall k :: i <= k < 11 ==> out[k] == SPACE
    {
      out[i] := Upper(name[i]);
      i := i + 1;
    }
  }

  /** The second loop. */
  method ExtensionInto(rest: Name, out: array<Byte>)
    requires out.Length == 11 && out[8..] == Pad([], 3)
    modifies out
    ensures out[..8] == old(out[..8]) && out[8..] == Pad(UpperAll(rest[..Min(|rest|, 3)]), 3)
  {
    var i, j := 0, 8;
    while i < |rest| && j < 11
      invariant j == 8 + i && i <= |rest| && j <= 11 && out[..8] == old(out[..8])
      invariant forall k :: 0 <= k < i ==> out[8 + k] == Upper(rest[k])
      invariant forall k :: j <= k < 11 ==> out[k] == SPACE
    {
      out[j] := Upper(rest[i]);
      i, j := i + 1, j + 1;
    }
  }

  method NameToShort(name: Name) returns (s: Name)
    ensures s == Short(name)
  {
    var out := new Byte[11](_ => SPACE);
    var i := StemInto(name, out);
    if i < |name| && name[i] == DOT {
      i := i + 1;
    }
    ExtensionInto(name[i..], out);
    s := out[..];
    assert s == out[..8] + out[8..];
  }

  method ShortToName(s: Name) returns (name: Name)
    requires |s| == 11
    ensures name == Listed(s)
  {
    name := [];
    var i := 0;
    while i < 8 && s[i] != SPACE
      invariant i <= 8 && name == s[..i] && IndexOf(s[..8], SPACE) >= i
    {
      name := name + [s[i]];
      i := i + 1;
    }
    IndexOfUnique(s[..8], SPACE, i);
    assert s[..8][..i] == name;
    name := ExtensionFrom(s, name);
  }

  /** The second loop of `short_to_name`. */
  method ExtensionFrom(s: Name, stem: Name) returns (name: Name)
    requires |s| == 11
    ensures name == WithExtension(stem, NoSpaces(s[8..]))
  {
    name := stem;
    var extStart := |name|;
    ghost var ext := [];
    var i := 8;
    while i < 11
      invariant 8 <= i <= 11
      invariant ext == NoSpaces(s[8..i]) && name == WithExtension(stem, ext)
    {
      NoSpacesMore(s[8..i], s[i]);
      assert s[8..i + 1] == s[8..i] + [s[i]];
      WithMore(stem, ext, s[i]);
      if s[i] != SPACE {
        if extStart == |name| {
          name := name + [DOT];
        }
        ext := ext + [s[i]];
        name := name + [s[i]];
      }
      i := i + 1;
    }
    assert s[8..11] == s[8..];
  }

  lemma NoSpacesMore(s: Name, c: Byte)
    ensures NoSpaces(s + [c]) == NoSpaces(s) + (if c == SPACE then [] else [c])
  {
    assert (s + [c])[..|s|] == s;
  }

  // ----- Which names survive the short form -----

  lemma {:induction false} NoSpacesPad(s: Name, n: nat)
    requires |s| <= n
    ensures NoSpaces(Pad(s, n)) == NoSpaces(s)
    decreases n - |s|
  {
    if |s| < n {
      NoSpacesPad(s + [SPACE], n);
      NoSpacesMore(s, SPACE);
      assert Pad(s + [SPACE], n) == Pad(s, n);
    } else {
      assert Pad(s, n) == s;
    }
  }

  lemma {:induction false} NoSpacesLength(s: Name)
    ensures |NoSpaces(s)| <= |s| && (|NoSpaces(s)| == |s| <==> SPACE !in s) && (SPACE !in s ==> NoSpaces(s) == s)
  {
    if s == [] {
    } else {
      NoSpacesLength(s[..|s| - 1]);
      assert s == s[..|s| - 1] + [s[|s| - 1]];
    }
  }

  /** What becomes of a name that is put in short form and listed again. */
  lemma ListedShort(name: Name)
    ensures var stem, ext := Stem(name), NoSpaces(UpperAll(Extension(name)));
            Listed(Short(name)) == UpperAll(stem[..IndexOf(stem, SPACE)]) + (if ext == [] then [] else [DOT] + ext)
  {
    var stem, ext := Stem(name), Extension(name);
    var padded, n := Pad(UpperAll(stem), 8), IndexOf(stem, SPACE);
    assert Short(name)[..8] == padded && Short(name)[8..] == Pad(UpperAll(ext), 3);
    NoSpacesPad(UpperAll(ext), 3);
    assert forall i :: 0 <= i < n ==> padded[i] == Upper(stem[i]);
    assert n < 8 ==> padded[n] == SPACE;
    IndexOfUnique(padded, SPACE, n);
    assert padded[..n] == UpperAll(stem[..n]);
  }

  lemma Parts(name: Name)
    requires IndexOf(name, DOT) <= 8
    ensures var dot := IndexOf(name, DOT);
            && Stem(name) == name[..dot]
            && (dot == |name| ==> Stem(name) == name && Extension(name) == [])
            && (dot < |name| ==> name == Stem(name) + ([DOT] + name[dot + 1..]) &&
                                 Extension(name) == name[dot + 1..][..Min(|name| - dot - 1, 3)])
  {
    var dot := IndexOf(name, DOT);
    assert |Stem(name)| == dot;
    if dot == |name| {
      assert name[..dot] == name && name[dot..] == [];
    } else {
      JoinedAt(name, dot);
    }
  }

  lemma JoinedAt(s: Name, i: nat)
    requires i < |s|
    ensures s == s[..i] + ([s[i]] + s[i + 1..])
  {
  }

  lemma UpperSame(s: Name)
    ensures SameName(UpperAll(s), s) && (SPACE in UpperAll(s) <==> SPACE in s)
  {
    assert forall i :: 0 <= i < |s| ==> UpperAll(s)[i] == Upper(s[i]);
    assert SPACE in s ==> exists i :: 0 <= i < |s| && UpperAll(s)[i] == SPACE;
  }

  lemma SameNameJoined(a: Name, b: Name, c: Name, d: Name)
    requires SameName(a, b) && SameName(c, d)
    ensures SameName(a + c, b + d)
  {
  }

  lemma ShortStays(name: Name)
    requires Is83(name)
    ensures SameName(Listed(Short(name)), name)
  {
    var dot := IndexOf(name, DOT);
    var stem, ext := Stem(name), Extension(name);
    Parts(name);
    ListedShort(name);
    UpperSame(stem);
    assert SPACE !in stem;
    IndexOfUnique(stem, SPACE, |stem|);
    assert stem[..|stem|] == stem;
    if dot < |name| {
      var tail := name[dot + 1..];
      assert ext == tail && SPACE !in tail;
      UpperSame(ext);
      NoSpacesLength(UpperAll(ext));
      SameNameJoined([DOT], [DOT], UpperAll(ext), ext);
      SameNameJoined(UpperAll(stem), stem, [DOT] + UpperAll(ext), [DOT] + ext);
    } else {
      assert NoSpaces(UpperAll(ext)) == [];
      assert UpperAll(stem) + [] == UpperAll(stem);
    }
  }

  /** With the dot no later than the ninth place, only a name in short form can come back. */
  lemma ShortLostEarly(name: Name)
    requires IndexOf(name, DOT) <= 8 && SameName(Listed(Short(name)), name)
    ensures Is83(name)
  {
    var dot := IndexOf(name, DOT);
    var stem, ext := Stem(name), Extension(name);
    Parts(name);
    ListedShort(name);
    NoSpacesLength(UpperAll(ext));
    UpperSame(ext);
    assert |UpperAll(ext)| == |ext|;
    if dot < |name| {
      var tail := name[dot + 1..];
      assert |name| == |stem| + 1 + |tail| && |ext| <= |tail|;
      assert ext == tail;
      assert SPACE !in stem && SPACE !in tail;
    }
  }

  lemma ShortLostLate(name: Name)
    requires IndexOf(name, DOT) > 8
    ensures !SameName(Listed(Short(name)), name)
  {
    var stem := Stem(name);
    var n, ext := IndexOf(stem, SPACE), NoSpaces(UpperAll(Extension(name)));
    ListedShort(name);
    var l := Listed(Short(name));
    assert ext == [] ==> |l| == n;
    assert ext != [] ==> l[n] == DOT;
    assert name[n] != DOT;
  }

  /** Up to case, a name survives the short form exactly when it is an 8.3 name. */
  lemma ShortRoundTrip(name: Name)
    ensures SameName(Listed(Short(name)), name) <==> Is83(name)
  {
    if Is83(name) {
      ShortStays(name);
    } else if IndexOf(name, DOT) > 8 {
      ShortLostLate(name);
    } else if SameName(Listed(Short(name)), name) {
      ShortLostEarly(name);
    }
  }

  /** `a.` does not survive: it is listed as `A`. */
  lemma DotLost()
    ensures Listed(Short([97, DOT])) == [65] && !SameName(Listed(Short([97, DOT])), [97, DOT])
  {
    var name: Name := [97, DOT];
    IndexOfUnique(name, DOT, 1);
    assert Stem(name) == [97] && Extension(name) == [];
    IndexOfUnique(Stem(name), SPACE, 1);
    ListedShort(name);
  }

  /** Byte `k` of the short name of `name`, whose stem has `n` bytes: the letters a to z become A to Z,
      every other byte stays as it is, and what is left of either part is filled with blanks. */
  lemma ShortBytes(name: Name, n: nat, k: nat)
    requires n <= |name| && n <= 8 && k < 11
    requires forall i :: 0 <= i < n ==> name[i] != 46
    requires n == 8 || n == |name| || name[n] == 46
    ensures
      var start := if n < |name| && name[n] == 46 then n + 1 else n;
      var at := if k < 8 then k else start + k - 8;
      Short(name)[k] ==
        if (if k < 8 then k >= n else at >= |name|) then 32
        else if 97 <= name[at] <= 122 then name[at] - 32
        else name[at]
    ensures !(97 <= Short(name)[k] <= 122)
  {
    assert |Stem(name)| == n && Stem(name) == name[..n];
    var start := if n < |name| && name[n] == 46 then n + 1 else n;
    assert Extension(name) == name[start..][..Min(|name| - start, 3)];
    assert k >= 8 ==> Short(name)[k] == Pad(UpperAll(Extension(name)), 3)[k - 8];
  }

  // ----- Long names -----

  type Unit = n: nat | n < 0x1_0000

  const LONG_ATTR: Byte := 0x0F
  const LAST_LONG := 0x40
  const UNITS := 13
  const MAX_NAME := 255

  /** The 16-bit unit for place `i` of a name: the character, then one zero, then filling. */
  function UnitOf(name: Name, i: nat): Unit {
    if i < |name| then name[i] else if i == |name| then 0 else 0xFFFF
  }

  /** Where unit `k` of a slot lies: 5 units, then 6, then 2. */
  function UnitAt(k: nat): (p: nat)
    requires k < UNITS
    ensures 1 <= p <= 30
  {
    if k < 5 then 1 + 2 * k else if k < 11 then 14 + 2 * (k - 5) else 28 + 2 * (k - 11)
  }

  function Le16(s: seq<Byte>, p: nat): Unit
    requires p + 2 <= |s|
  {
    s[p] as nat + 256 * s[p + 1] as nat
  }

  function Rotated(c: Byte): Byte {
    c / 2 + c % 2 * 128
  }

  function Checksum(short: Name): Byte {
    if short == [] then 0 else (Rotated(Checksum(short[..|short| - 1])) + short[|short| - 1]) % 256
  }

  method ShortChecksum(short: Name) returns (sum: Byte)
    ensures sum == Checksum(short)
  {
    sum := 0;
    for i := 0 to |short|
      invariant sum == Checksum(short[..i])
    {
      assert short[..i + 1][..i] == short[..i];
      sum := Rotated(sum);
      sum := (sum + short[i]) % 256;
    }
    assert short[..|short|] == short;
  }

  /** Each byte is added to the sum so far, turned right by one bit: 65, then 160 + 66, then 113 + 67. */
  lemma ChecksumOfAbc()
    ensures Checksum([65, 66, 67]) == 180
  {
    var s: Name := [65, 66, 67];
    assert s[..2][..1] == [65] && [65][..0] == [];
    assert Checksum([65]) == 65 && Checksum(s[..2]) == 226;
  }

  /** A slot that holds the units of `name` for `order`, and is marked as one. */
  ghost predicate IsLongSlot(slot: seq<Byte>, name: Name, short: Name, order: nat, last: bool) {
    && |slot| == 32 && 0 < order < LAST_LONG
    && slot[0] == order + (if last then LAST_LONG else 0)
    && slot[11] == LONG_ATTR && slot[12] == 0 && slot[13] == Checksum(short) && slot[26] == slot[27] == 0
    && HoldsUnits(slot, name, UNITS * (order - 1), UNITS)
  }

  /** The first `n` units of the slot are those of `name` from `start` on. */
  ghost predicate HoldsUnits(slot: seq<Byte>, name: Name, start: nat, n: nat)
    requires |slot| == 32
  {
    n <= UNITS && forall k {:trigger UnitAt(k)} :: 0 <= k < n ==> Le16(slot, UnitAt(k)) == UnitOf(name, start + k)
  }

  /** Byte `q` of a name in two bytes a character, the low one first, with its end and the filling. */
  function WideByte(name: Name, q: nat): Byte {
    if q / 2 > |name| then 0xFF else if q / 2 == |name| || q % 2 == 1 then 0 else name[q / 2]
  }

  lemma UnitBytes(slot: seq<Byte>, name: Name, start: nat, k: nat)
    requires |slot| == 32 && k < UNITS && HoldsUnits(slot, name, start, UNITS)
    ensures slot[UnitAt(k)] == WideByte(name, 2 * (start + k)) && slot[UnitAt(k) + 1] == WideByte(name, 2 * (start + k) + 1)
  {
    var u: nat := UnitOf(name, start + k);
    var lo: nat, hi: nat := slot[UnitAt(k)], slot[UnitAt(k) + 1];
    assert lo + 256 * hi == u;
    assert lo == u % 256 && hi == u / 256;
  }

  /** The order is at byte 0, with bit 6 set in the last one, the attributes at 11, and the 26 bytes of the
      name that slot `order` holds at 1 to 10, 14 to 25 and 28 to 31. */
  lemma SlotBytes(slot: seq<Byte>, name: Name, short: Name, order: nat, last: bool, p: nat)
    requires IsLongSlot(slot, name, short, order, last)
    ensures slot[0] == (if last then order + 64 else order) && slot[11] == 15
    ensures 1 <= p <= 10 ==> slot[p] == WideByte(name, 26 * (order - 1) + p - 1)
    ensures 14 <= p <= 25 ==> slot[p] == WideByte(name, 26 * (order - 1) + p - 4)
    ensures 28 <= p <= 31 ==> slot[p] == WideByte(name, 26 * (order - 1) + p - 6)
  {
    if 1 <= p <= 10 {
      UnitBytes(slot, name, UNITS * (order - 1), (p - 1) / 2);
    } else if 14 <= p <= 25 {
      UnitBytes(slot, name, UNITS * (order - 1), (p - 4) / 2);
    } else if 28 <= p <= 31 {
      UnitBytes(slot, name, UNITS * (order - 1), (p - 6) / 2);
    }
  }

  /** The bytes of a slot that are not units. */
  predicate Header(p: nat) {
    p == 0 || 11 <= p <= 13 || 26 <= p <= 27
  }

  /** One of the three loops that write units. */
  method WriteUnits(slot: array<Byte>, name: Name, start: nat, from: nat, to: nat)
    requires slot.Length == 32 && from <= to <= UNITS && HoldsUnits(slot[..], name, start, from)
    modifies slot
    ensures HoldsUnits(slot[..], name, start, to)
    ensures forall p :: 0 <= p < 32 && Header(p) ==> slot[p] == old(slot[p])
  {
    for k := from to to
      invariant HoldsUnits(slot[..], name, start, k)
      invariant forall p :: 0 <= p < 32 && Header(p) ==> slot[p] == old(slot[p])
    {
      var ch := UnitOf(name, start + k);
      var p := UnitAt(k);
      slot[p], slot[p + 1] := ch % 256, ch / 256;
    }
  }

  /** `fat_write_lfn_entries`. */
  method WriteLong(name: Name, short: Name, order: nat, last: bool) returns (entry: seq<Byte>)
    requires 0 < order < LAST_LONG
    ensures IsLongSlot(entry, name, short, order, last)
  {
    var slot := new Byte[32](_ => 0xFF);
    slot[0] := order + if last then LAST_LONG else 0;
    slot[11], slot[12] := LONG_ATTR, 0;
    slot[13] := ShortChecksum(short);
    slot[26], slot[27] := 0, 0;
    var start := UNITS * (order - 1);
    WriteUnits(slot, name, start, 0, 5);
    WriteUnits(slot, name, start, 5, 11);
    WriteUnits(slot, name, start, 11, 13);
    entry := slot[..];
  }

  predicate Terminator(u: Unit) {
    u == 0 || u == 0xFFFF
  }

  function Low(u: Unit): (c: Byte)
    ensures u < 256 ==> c == u
  {
    u % 256
  }

  /** The characters of units `k` up to `to`, as far as the first terminator. */
  function Taken(slot: seq<Byte>, k: nat, to: nat): (r: Name)
    requires |slot| == 32 && k <= to <= UNITS
    ensures |r| <= to - k
    decreases UNITS - k
  {
    if k == to || Terminator(Le16(slot, UnitAt(k))) then []
    else [Low(Le16(slot, UnitAt(k)))] + Taken(slot, k + 1, to)
  }

  /** What `lfn_extract_part` reads: a terminator ends only the group of units it is in. */
  function Part(slot: seq<Byte>): (r: Name)
    requires |slot| == 32
    ensures |r| <= UNITS
  {
    Taken(slot, 0, 5) + Taken(slot, 5, 11) + Taken(slot, 11, 13)
  }

  lemma AppendAssociates(a: Name, b: Name, c: Name)
    ensures (a + b) + c == a + (b + c)
  {
  }

  method ExtractUnits(slot: seq<Byte>, from: nat, to: nat) returns (part: Name)
    requires |slot| == 32 && from <= to <= UNITS
    ensures part == Taken(slot, from, to)
  {
    part := [];
    var k := from;
    while k < to && !Terminator(Le16(slot, UnitAt(k)))
      invariant from <= k <= to && part + Taken(slot, k, to) == Taken(slot, from, to)
    {
      var c := Low(Le16(slot, UnitAt(k)));
      AppendAssociates(part, [c], Taken(slot, k + 1, to));
      part := part + [c];
      k := k + 1;
    }
  }

  method ExtractPart(slot: seq<Byte>) returns (part: Name)
    requires |slot| == 32
    ensures part == Part(slot)
  {
    var a := ExtractUnits(slot, 0, 5);
    var b := ExtractUnits(slot, 5, 11);
    var c := ExtractUnits(slot, 11, 13);
    part := a + b + c;
  }

  /** A C string's bytes. */
  function CString(s: Name): Name {
    s[..IndexOf(s, 0)]
  }

  /** The long name so far with a part put before it, cut to what the buffer holds. */
  function Prepended(dst: Name, part: Name): Name {
    var room := if |part| + |dst| >= 256 then 256 - |dst| - 1 else |part|;
    if room <= 0 then dst else part[..room] + dst
  }

  /** `lfn_prepend`, in place on the buffer of 256 bytes. */
  method PrependPart(buf: array<Byte>, part: Name)
    requires buf.Length == 256 && 0 in buf[..]
    modifies buf
    ensures 0 in buf[..] && CString(buf[..]) == Prepended(old(CString(buf[..])), CString(part))
  {
    var partLen := IndexOf(part, 0);
    var dstLen := IndexOf(buf[..], 0);
    if partLen + dstLen >= 256 {
      partLen := 256 - dstLen - 1;
    }
    if partLen <= 0 {
      return;
    }
    InFront(buf, part[..partLen], dstLen);
  }

  /** Moves the string of length `n` up and copies `head` in front of it. */
  method InFront(buf: array<Byte>, head: Name, n: nat)
    requires buf.Length == 256 && |head| + n < 256 && 0 !in head && n == IndexOf(buf[..], 0)
    modifies buf
    ensures 0 in buf[..] && CString(buf[..]) == head + old(buf[..n])
  {
    forall i | 0 <= i < n + 1 {
      buf[|head| + i] := buf[i];
    }
    assert buf[|head| + n] == 0;
    forall i | 0 <= i < |head| {
      buf[i] := head[i];
    }
    IsString(buf[..], head + old(buf[..n]));
  }

  lemma IsString(s: Name, t: Name)
    requires |t| < |s| && 0 !in t && s[|t|] == 0 && forall i :: 0 <= i < |t| ==> s[i] == t[i]
    ensures CString(s) == t
  {
    IndexOfUnique(s, 0, |t|);
  }

  // ----- Long names come back -----

  /** The long name after the slots are read in turn. */
  function Collected(slots: seq<seq<Byte>>, lfn: Name): Name {
    if slots == [] then lfn else
    var n := |slots| - 1;
    Collect(slots[n], Collected(slots[..n], lfn))
  }

  /** Whether a slot is the first one of a name on the disk, which is the last part of it. */
  predicate Marked(order: Byte) {
    order / LAST_LONG % 2 == 1
  }

  /** The mark is bit 6, whatever the other bits are. */
  lemma MarkIsBit6(order: Byte)
    ensures Marked(order) <==> 64 <= order < 128 || 192 <= order
  {
  }

  lemma MarkOf(order: nat, last: bool)
    requires 0 < order < LAST_LONG
    ensures Marked(order + if last then LAST_LONG else 0) == last
  {
  }

  /** One slot read: the slot with the mark starts the name afresh. */
  function Collect(slot: seq<Byte>, lfn: Name): Name {
    if |slot| != 32 then lfn else
    Prepended(if Marked(slot[0]) then [] else lfn, CString(Part(slot)))
  }

  function SlotCount(name: Name): (n: nat)
    ensures UNITS * (n - 1) < |name| <= UNITS * n || (n == 0 && name == [])
  {
    (|name| + 12) / 13
  }

  /** The first slots of a long name, as they are laid out: its last part first. */
  ghost predicate AreLongSlots(slots: seq<seq<Byte>>, name: Name, short: Name)
    decreases |slots|
  {
    var n := |slots| - 1;
    && |slots| <= SlotCount(name) < LAST_LONG
    && (n >= 0 ==> IsLongSlot(slots[n], name, short, SlotCount(name) - n, n == 0) && AreLongSlots(slots[..n], name, short))
  }

  lemma {:induction false} LongSlotsFirstBytes(slots: seq<seq<Byte>>, name: Name, short: Name)
    requires AreLongSlots(slots, name, short)
    ensures forall i :: 0 <= i < |slots| ==> |slots[i]| == 32 && slots[i][0] != 0x00 && slots[i][0] != 0xE5
    decreases |slots|
  {
    if slots == [] {
    } else {
      var n := |slots| - 1;
      LongSlotsFirstBytes(slots[..n], name, short);
      assert forall i :: 0 <= i < n ==> slots[i] == slots[..n][i];
    }
  }

  /** The loop of `fat_create_entry` that writes the slots, from the last to the first. */
  method WriteLongSlots(name: Name, short: Name) returns (slots: seq<seq<Byte>>)
    requires |name| <= MAX_NAME
    ensures |slots| == SlotCount(name) && AreLongSlots(slots, name, short)
  {
    slots := [];
    var count := SlotCount(name);
    var i := count;
    while i >= 1
      invariant 0 <= i <= count && |slots| == count - i && AreLongSlots(slots, name, short)
    {
      var slot := WriteLong(name, short, i, i == count);
      assert (slots + [slot])[..|slots|] == slots;
      slots := slots + [slot];
      i := i - 1;
    }
  }

  /** The characters from `a` up to `b`, as far as there are any. */
  function Cut(s: Name, a: nat, b: nat): Name
    requires a <= b
  {
    s[Min(a, |s|)..Min(b, |s|)]
  }

  lemma CutFirst(s: Name, a: nat, b: nat)
    requires a < b && a < |s|
    ensures Cut(s, a, b) == [s[a]] + Cut(s, a + 1, b)
  {
  }

  lemma CutRest(s: Name, a: nat)
    requires a <= |s|
    ensures Cut(s, a, |s| + UNITS) == s[a..]
  {
  }

  lemma CutEmpty(s: Name, a: nat, b: nat)
    requires |s| <= a <= b
    ensures Cut(s, a, b) == []
  {
  }

  lemma CutString(s: Name, a: nat, b: nat)
    requires a <= b && 0 !in s
    ensures CString(Cut(s, a, b)) == Cut(s, a, b)
  {
    var part := Cut(s, a, b);
    forall i | 0 <= i < |part|
      ensures part[i] != 0
    {
      assert part[i] == s[a + i];
    }
    IndexOfUnique(part, 0, |part|);
  }

  lemma CutJoined(s: Name, a: nat, b: nat, c: nat)
    requires a <= b <= c
    ensures Cut(s, a, b) + Cut(s, b, c) == Cut(s, a, c)
  {
  }

  lemma UnitTaken(slot: seq<Byte>, name: Name, start: nat, k: nat)
    requires |slot| == 32 && HoldsUnits(slot, name, start, UNITS) && 0 !in name && k < UNITS
    ensures Terminator(Le16(slot, UnitAt(k))) <==> start + k >= |name|
    ensures start + k < |name| ==> Low(Le16(slot, UnitAt(k))) == name[start + k]
  {
    assert Le16(slot, UnitAt(k)) == UnitOf(name, start + k);
    if start + k < |name| {
      assert name[start + k] in name;
    }
  }

  lemma {:induction false} TakenOf(slot: seq<Byte>, name: Name, start: nat, k: nat, to: nat)
    requires |slot| == 32 && HoldsUnits(slot, name, start, UNITS) && 0 !in name && k <= to <= UNITS
    ensures Taken(slot, k, to) == Cut(name, start + k, start + to)
    decreases UNITS - k
  {
    if k >= to {
    } else {
      UnitTaken(slot, name, start, k);
      if start + k < |name| {
        TakenOf(slot, name, start, k + 1, to);
        CutFirst(name, start + k, start + to);
      }
    }
  }

  lemma PartOf(slot: seq<Byte>, name: Name, start: nat)
    requires |slot| == 32 && HoldsUnits(slot, name, start, UNITS) && 0 !in name
    ensures CString(Part(slot)) == Part(slot) == Cut(name, start, start + UNITS)
  {
    TakenOf(slot, name, start, 0, 5);
    TakenOf(slot, name, start, 5, 11);
    TakenOf(slot, name, start, 11, 13);
    CutJoined(name, start, start + 5, start + 11);
    CutJoined(name, start, start + 11, start + 13);
    CutString(name, start, start + UNITS);
  }

  /** Reading one slot puts its 13 characters before what follows them. */
  lemma CollectOne(slot: seq<Byte>, name: Name, start: nat, lfn: Name)
    requires |slot| == 32 && HoldsUnits(slot, name, start, UNITS) && 0 !in name && start <= |name| <= MAX_NAME
    requires if Marked(slot[0]) then |name| <= start + UNITS else lfn == Cut(name, start + UNITS, |name| + UNITS)
    ensures Collect(slot, lfn) == name[start..]
  {
    PartOf(slot, name, start);
    CutJoined(name, start, start + UNITS, |name| + UNITS);
    CutRest(name, start);
    if Marked(slot[0]) {
      CutEmpty(name, start + UNITS, |name| + UNITS);
      PrependedFits([], Cut(name, start, start + UNITS));
    } else {
      PrependedFits(lfn, Cut(name, start, start + UNITS));
    }
  }

  lemma PrependedFits(dst: Name, part: Name)
    requires |part| + |dst| <= MAX_NAME
    ensures Prepended(dst, part) == part + dst
  {
    assert part[..|part|] == part;
    assert part == [] ==> part + dst == dst;
  }

  lemma {:induction false} CollectedTail(slots: seq<seq<Byte>>, name: Name, short: Name, lfn: Name)
    requires AreLongSlots(slots, name, short) && slots != [] && 0 !in name && |name| <= MAX_NAME
    ensures Collected(slots, lfn) == Cut(name, UNITS * (SlotCount(name) - |slots|), |name| + UNITS)
    decreases |slots|
  {
    var n := |slots| - 1;
    var start := UNITS * (SlotCount(name) - n - 1);
    if n == 0 {
    } else {
      CollectedTail(slots[..n], name, short, lfn);
    }
    CollectNext(slots[n], name, short, SlotCount(name) - n, n == 0, Collected(slots[..n], lfn));
    CutRest(name, start);
  }

  /** A slot puts its part of the name before what the slots above it have given. */
  lemma CollectNext(slot: seq<Byte>, name: Name, short: Name, order: nat, last: bool, lfn: Name)
    requires IsLongSlot(slot, name, short, order, last) && order <= SlotCount(name) && 0 !in name && |name| <= MAX_NAME
    requires if last then order == SlotCount(name) else lfn == Cut(name, UNITS * order, |name| + UNITS)
    ensures Collect(slot, lfn) == name[UNITS * (order - 1)..]
  {
    MarkOf(order, last);
    CollectOne(slot, name, UNITS * (order - 1), lfn);
  }

  /** The slots written for a long name give it back, whatever was read before them. */
  lemma LongRoundTrip(slots: seq<seq<Byte>>, name: Name, short: Name, lfn: Name)
    requires |slots| == SlotCount(name) && AreLongSlots(slots, name, short)
    requires 1 <= |name| <= MAX_NAME && 0 !in name
    ensures Collected(slots, lfn) == name
    ensures forall i :: 0 <= i < |slots| ==> |slots[i]| == 32 && slots[i][0] != 0x00 && slots[i][0] != 0xE5
  {
    CollectedTail(slots, name, short, lfn);
    CutRest(name, 0);
    LongSlotsFirstBytes(slots, name, short);
  }
}
