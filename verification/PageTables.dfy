// The boot page tables of the KVM back end (native/kvm/backend.cc:762-778; Intel SDM Vol. 3A, section 4.5): the
// nested loops that write them byte by byte, and the 4-level walk that the processor then makes.
module PageTables {
  import opened Bytes
  import opened Words

  const PAGE: nat := 0x1000
  const HUGE_PAGE: nat := 0x20_0000
  const FOUR_GIB: nat := 0x1_0000_0000

  const LINK: byte := 0x07
  const HUGE: byte := 0x83

  // All six tables lie below 2^64.
  predicate Base(base: nat) { base + 6 * PAGE < U64_SPAN }

  // address | flags
  function Flagged(address: u64, flags: byte): u64 {
    WordSpan();
    OrBelow(address, flags, 64);
    Or(address, flags)
  }

  // On a page-aligned address the flag bits are added.
  lemma FlaggedIsAdd(k: nat, flags: byte)
    requires k * PAGE < U64_SPAN
    ensures Flagged(k * PAGE, flags) == k * PAGE + flags
  {
    assert Pow2(4) == 16;
    Pow2Sum(4, 4);
    Pow2Sum(4, 8);
    OrIsAdd(k, flags, 12);
  }

  function HugeEntry(i: nat, j: nat): u64
    requires i < 4 && j < 512
  {
    Flagged((i * 512 + j) * HUGE_PAGE, HUGE)
  }

  // ---- Memory ----

  lemma EntryFrame(m: seq<byte>, n: seq<byte>, a: nat)
    requires a + 8 <= |m| && a + 8 <= |n| && m[a..a + 8] == n[a..a + 8]
    ensures U64At(m, a) == U64At(n, a)
  {
    hide U64At;
    FieldOfSlice(m, a, 8);
    FieldOfSlice(n, a, 8);
  }

  lemma SpliceFrame(m: seq<byte>, at: nat, t: seq<byte>, lo: nat, hi: nat)
    requires lo <= at && at + |t| <= hi <= |m|
    ensures Splice(m, at, t)[..lo] == m[..lo] && Splice(m, at, t)[hi..] == m[hi..]
  {
  }

  lemma EntryWritten(m: seq<byte>, at: nat, v: u64)
    requires at + 8 <= |m|
    ensures U64At(Splice(m, at, Le64(v)), at) == v
  {
    hide U64At, Le64;
    var n := Splice(m, at, Le64(v));
    FieldOfSlice(n, at, 8);
    assert n[at..at + 8] == Le64(v);
  }

  lemma EntryKept(m: seq<byte>, at: nat, v: u64, a: nat)
    requires at + 8 <= |m| && a + 8 <= |m| && (a + 8 <= at || at + 8 <= a)
    ensures U64At(Splice(m, at, Le64(v)), a) == U64At(m, a)
  {
    hide U64At, Le64;
    assert Splice(m, at, Le64(v))[a..a + 8] == m[a..a + 8];
    EntryFrame(m, Splice(m, at, Le64(v)), a);
  }

  // WriteU64(mem.ptr(at, 8), v): false where ptr throws.
  method WriteU64(mem: array<byte>, at: nat, v: u64) returns (ok: bool)
    modifies mem
    ensures ok == InRange(mem.Length, at, 8)
    ensures ok ==> mem[..] == Splice(old(mem[..]), at, Le64(v))
    ensures !ok ==> mem[..] == old(mem[..])
  {
    ok := InRange(mem.Length, at, 8);
    if ok { Store(mem, at, Le64(v)); }
  }

  // The first n entries of page directory i, which starts at pd.
  ghost predicate Directory(m: seq<byte>, pd: nat, i: nat, n: nat)
    requires i < 4 && n <= 512 && pd + 8 * n <= |m|
  {
    forall j :: 0 <= j < n ==> U64At(m, pd + 8 * j) == HugeEntry(i, j)
  }

  lemma DirectoryKept(m: seq<byte>, pd: nat, i: nat, n: nat, at: nat, v: u64)
    requires i < 4 && n <= 512 && pd + 8 * n <= |m| && at + 8 <= |m|
    requires at + 8 <= pd || pd + 8 * n <= at
    requires Directory(m, pd, i, n)
    ensures Directory(Splice(m, at, Le64(v)), pd, i, n)
  {
    hide U64At, Le64, HugeEntry, Splice;
    forall j | 0 <= j < n ensures U64At(Splice(m, at, Le64(v)), pd + 8 * j) == HugeEntry(i, j) {
      EntryKept(m, at, v, pd + 8 * j);
    }
  }

  lemma DirectoryFrame(m: seq<byte>, n: seq<byte>, pd: nat, i: nat)
    requires i < 4 && pd + PAGE <= |m| && pd + PAGE <= |n| && m[pd..pd + PAGE] == n[pd..pd + PAGE]
    requires Directory(m, pd, i, 512)
    ensures Directory(n, pd, i, 512)
  {
    hide U64At, HugeEntry;
    forall j | 0 <= j < 512 ensures U64At(n, pd + 8 * j) == HugeEntry(i, j) {
      SliceOfSlice(m, pd, PAGE, 8 * j, 8);
      SliceOfSlice(n, pd, PAGE, 8 * j, 8);
      EntryFrame(m, n, pd + 8 * j);
    }
  }

  // The inner loop.
  method FillDirectory(mem: array<byte>, pd: nat, i: nat) returns (ok: bool)
    requires i < 4
    modifies mem
    ensures ok <==> pd + PAGE <= mem.Length
    ensures ok ==> Directory(mem[..], pd, i, 512)
    ensures ok ==> mem[..pd] == old(mem[..pd]) && mem[pd + PAGE..] == old(mem[pd + PAGE..])
  {
    hide U64At, Le64, HugeEntry, Splice;
    for j := 0 to 512
      invariant if j == 0 then mem[..] == old(mem[..]) else pd + 8 * j <= mem.Length
      invariant j > 0 ==> Directory(mem[..], pd, i, j) && mem[..pd] == old(mem[..pd])
      invariant pd + PAGE <= mem.Length ==> mem[pd + PAGE..] == old(mem[pd + PAGE..])
    {
      ghost var m := mem[..];
      ok := WriteU64(mem, pd + j * 8, HugeEntry(i, j));
      if !ok { return; }
      DirectoryKept(m, pd, i, j, pd + j * 8, HugeEntry(i, j));
      EntryWritten(m, pd + j * 8, HugeEntry(i, j));
      SpliceFrame(m, pd + j * 8, Le64(HugeEntry(i, j)), pd, pd + j * 8 + 8);
      assert mem[..pd] == mem[..][..pd] == m[..pd];
      if pd + PAGE <= mem.Length { SpliceFrame(m, pd + j * 8, Le64(HugeEntry(i, j)), pd, pd + PAGE); }
    }
    ok := true;
  }

  // The tables once the first n directories are filled.
  ghost predicate Tables(m: seq<byte>, base: nat, n: nat)
    requires n <= 4 && base + 6 * PAGE <= |m| && Base(base)
  {
    && U64At(m, base) == Flagged(base + PAGE, LINK)
    && forall i :: 0 <= i < n ==> DirectoryLinked(m, base, i)
  }

  ghost predicate DirectoryLinked(m: seq<byte>, base: nat, i: nat)
    requires i < 4 && base + 6 * PAGE <= |m| && Base(base)
  {
    var pd := base + 2 * PAGE + i * PAGE;
    U64At(m, base + PAGE + i * 8) == Flagged(pd, LINK) && Directory(m, pd, i, 512)
  }

  // The root table and the first n entries of the second table and of the directories lie apart from what
  // changes next, so they stay.
  lemma TablesKept(m: seq<byte>, t: seq<byte>, base: nat, n: nat)
    requires n < 4 && Base(base) && base + 6 * PAGE <= |m| == |t| && Tables(m, base, n)
    requires t[..base + PAGE + n * 8] == m[..base + PAGE + n * 8]
    requires t[base + PAGE + n * 8 + 8..base + 2 * PAGE + n * PAGE]
            == m[base + PAGE + n * 8 + 8..base + 2 * PAGE + n * PAGE]
    ensures Tables(t, base, n)
  {
    hide U64At, Directory, Flagged;
    PrefixEntry(m, t, base + PAGE + n * 8, base);
    forall i | 0 <= i < n ensures DirectoryLinked(t, base, i) {
      assert DirectoryLinked(m, base, i);
      PrefixEntry(m, t, base + PAGE + n * 8, base + PAGE + i * 8);
      var lo, hi, pd := base + PAGE + n * 8 + 8, base + 2 * PAGE + n * PAGE, base + 2 * PAGE + i * PAGE;
      SliceOfSlice(m, lo, hi - lo, pd - lo, PAGE);
      SliceOfSlice(t, lo, hi - lo, pd - lo, PAGE);
      DirectoryFrame(m, t, pd, i);
    }
  }

  lemma PrefixEntry(m: seq<byte>, t: seq<byte>, k: nat, a: nat)
    requires k <= |m| == |t| && m[..k] == t[..k] && a + 8 <= k
    ensures U64At(t, a) == U64At(m, a)
  {
    hide U64At;
    assert m[a..a + 8] == m[..k][a..a + 8] && t[a..a + 8] == t[..k][a..a + 8];
    EntryFrame(m, t, a);
  }

  // The bytes that belong to no entry written for the first n directories.
  predicate Untouched(a: nat, base: nat, n: nat) {
    !(base <= a < base + 8) && !(base + PAGE <= a < base + PAGE + n * 8)
    && !(base + 2 * PAGE <= a < base + 2 * PAGE + n * PAGE)
  }

  ghost predicate Apart(m: seq<byte>, t: seq<byte>, base: nat, n: nat) {
    |t| == |m| && forall a :: 0 <= a < |m| && Untouched(a, base, n) ==> t[a] == m[a]
  }

  lemma BetweenSame(m0: seq<byte>, m1: seq<byte>, m2: seq<byte>, lo: nat, hi: nat)
    requires |m0| == |m1| == |m2| && lo <= hi <= |m0| && m1[lo..] == m0[lo..] && m2[..hi] == m1[..hi]
    ensures m2[lo..hi] == m0[lo..hi]
  {
    forall i | 0 <= i < hi - lo ensures m2[lo..hi][i] == m0[lo..hi][i] {
      assert m2[lo + i] == m2[..hi][lo + i] == m1[..hi][lo + i] == m1[lo + i];
      assert m1[lo + i] == m1[lo..][i] == m0[lo..][i] == m0[lo + i];
    }
  }

  // One turn of the outer loop: m0 with the link written is m1, with the directory filled it is m2.
  lemma TablesNext(m0: seq<byte>, m2: seq<byte>, base: nat, n: nat)
    requires n < 4 && Base(base) && base + 6 * PAGE <= |m0| == |m2| && Tables(m0, base, n)
    requires var pd := base + 2 * PAGE + n * PAGE; var m1 := Splice(m0, base + PAGE + n * 8, Le64(Flagged(pd, LINK)));
      Directory(m2, pd, n, 512) && m2[..pd] == m1[..pd] && m2[pd + PAGE..] == m1[pd + PAGE..]
    ensures Tables(m2, base, n + 1)
  {
    hide U64At, Le64, Directory, Flagged;
    var pd, at := base + 2 * PAGE + n * PAGE, base + PAGE + n * 8;
    var m1 := Splice(m0, at, Le64(Flagged(pd, LINK)));
    SpliceFrame(m0, at, Le64(Flagged(pd, LINK)), at, at + 8);
    assert m2[..at] == m2[..pd][..at] == m1[..at];
    BetweenSame(m0, m1, m2, at + 8, pd);
    TablesKept(m0, m2, base, n);
    EntryWritten(m0, at, Flagged(pd, LINK));
    PrefixEntry(m1, m2, pd, at);
    assert DirectoryLinked(m2, base, n);
  }

  lemma ApartNext(m: seq<byte>, m0: seq<byte>, m1: seq<byte>, m2: seq<byte>, base: nat, n: nat)
    requires n < 4 && base + 6 * PAGE <= |m| && |m| == |m0| == |m1| == |m2| && Apart(m, m0, base, n)
    requires var at, pd := base + PAGE + n * 8, base + 2 * PAGE + n * PAGE;
      && m1[..at] == m0[..at] && m1[at + 8..] == m0[at + 8..]
      && m2[..pd] == m1[..pd] && m2[pd + PAGE..] == m1[pd + PAGE..]
    ensures Apart(m, m2, base, n + 1)
  {
    var at, pd := base + PAGE + n * 8, base + 2 * PAGE + n * PAGE;
    forall a | 0 <= a < |m| && Untouched(a, base, n + 1) ensures m2[a] == m[a] {
      assert Untouched(a, base, n);
      assert a < pd || pd + PAGE <= a;
      assert m2[a] == m1[a] by {
        if a < pd { assert m2[..pd][a] == m1[..pd][a]; }
            else { assert m2[pd + PAGE..][a - (pd + PAGE)] == m1[pd + PAGE..][a - (pd + PAGE)]; }
      }
      assert m1[a] == m0[a] by {
        if a < at { assert m1[..at][a] == m0[..at][a]; }
            else { assert m1[at + 8..][a - (at + 8)] == m0[at + 8..][a - (at + 8)]; }
      }
    }
  }

  // BuildPageTables: false where an entry would lie outside memory, and then nothing is promised of the rest.
  // Guest memory has at most 4 GiB, so after the first store no address wraps.
  method BuildPageTables(mem: array<byte>, base: u64) returns (ok: bool)
    requires mem.Length <= FOUR_GIB
    modifies mem
    ensures ok <==> base + 6 * PAGE <= mem.Length
    ensures ok ==> Tables(mem[..], base, 4) && Apart(old(mem[..]), mem[..], base, 4)
  {
    hide U64At, Le64, Splice, Tables, Apart, Directory, Flagged;
    ghost var m := mem[..];
    var pdpt: u64 := if base + PAGE < U64_SPAN then base + PAGE else base + PAGE - U64_SPAN;
    ok := WriteU64(mem, base, Flagged(pdpt, LINK));
    if !ok { return; }
    FirstTable(m, base);
    for i := 0 to 4
      invariant i > 0 ==> base + 2 * PAGE + i * PAGE <= mem.Length
      invariant base + 6 * PAGE <= mem.Length ==> Tables(mem[..], base, i) && Apart(m, mem[..], base, i)
    {
      ghost var m0 := mem[..];
      var thisPd := base + 2 * PAGE + i * PAGE;
      ok := WriteU64(mem, base + PAGE + i * 8, Flagged(thisPd, LINK));
      if !ok { return; }
      ghost var m1 := mem[..];
      ok := FillDirectory(mem, thisPd, i);
      if !ok { return; }
      if base + 6 * PAGE <= mem.Length {
        assert mem[..][..thisPd] == mem[..thisPd] && mem[..][thisPd + PAGE..] == mem[thisPd + PAGE..];
        assert m1[..thisPd] == mem[..thisPd] && m1[thisPd + PAGE..] == mem[thisPd + PAGE..];
        TablesNext(m0, mem[..], base, i);
        SpliceFrame(m0, base + PAGE + i * 8, Le64(Flagged(thisPd, LINK)), base + PAGE + i * 8, base + PAGE + i * 8 + 8);
        ApartNext(m, m0, m1, mem[..], base, i);
      }
    }
  }

  lemma FirstTable(m: seq<byte>, base: nat)
    requires Base(base) && base + 8 <= |m|
    ensures base + 6 * PAGE <= |m| ==>
      Tables(Splice(m, base, Le64(Flagged(base + PAGE, LINK))), base, 0)
          && Apart(m, Splice(m, base, Le64(Flagged(base + PAGE, LINK))), base, 0)
  {
    hide U64At, Le64, Flagged;
    EntryWritten(m, base, Flagged(base + PAGE, LINK));
  }

  // ---- The walk ----

  predicate Present(e: u64) { e % 2 == 1 }

  predicate Large(e: u64) { e / 0x80 % 2 == 1 }

  function TableOf(e: u64): nat { e - e % PAGE }

  // The 4-level walk from cr3: the physical address, for 2 MiB pages only; None on a fault.
  function Walk(m: seq<byte>, cr3: nat, va: nat): Option<nat> {
    match Step(m, cr3, va / 0x80_0000_0000 % 512)
    case None => None
    case Some(e4) =>
      match Step(m, TableOf(e4), va / 0x4000_0000 % 512)
      case None => None
      case Some(e3) =>
        if Large(e3) then None else
          match Step(m, TableOf(e3), va / HUGE_PAGE % 512)
          case None => None
          case Some(e2) => if Large(e2) then Some(e2 - e2 % HUGE_PAGE + va % HUGE_PAGE) else None
  }

  // The present entry at an index of a table.
  function Step(m: seq<byte>, table: nat, index: nat): Option<u64> {
    if table + 8 * index + 8 <= |m| && Present(U64At(m, table + 8 * index)) then Some(U64At(m, table + 8 * index))
        else None
  }

  lemma Indices(va: nat)
    requires va < FOUR_GIB
    ensures va / 0x80_0000_0000 % 512 == 0
    ensures va / 0x4000_0000 % 512 == va / 0x4000_0000 < 4
    ensures va / 0x4000_0000 * 512 + va / HUGE_PAGE % 512 == va / HUGE_PAGE
    ensures va / HUGE_PAGE * HUGE_PAGE + va % HUGE_PAGE == va
  {
    assert va / HUGE_PAGE / 512 == va / 0x4000_0000;
  }

  lemma LinkLow(k: nat)
    ensures (0x1000 * k + 7) % 0x1000 == 7
  {
  }

  lemma LinkBit7(k: nat)
    ensures (0x1000 * k + 7) / 0x80 == 0x20 * k
  {
  }

  lemma Even(k: nat)
    ensures (2 * k) % 2 == 0 && (2 * k + 1) % 2 == 1
  {
  }

  lemma LinkBits(table: nat)
    requires table % PAGE == 0 && table + 7 < U64_SPAN
    ensures var e := Flagged(table, LINK); Present(e) && TableOf(e) == table && !Large(e)
  {
    hide Flagged;
    var k := table / PAGE;
    assert table == 0x1000 * k;
    FlaggedIsAdd(k, LINK);
    LinkLow(k);
    LinkBit7(k);
    assert table + 7 == 2 * (0x800 * k + 3) + 1 && 0x20 * k == 2 * (0x10 * k);
    Even(0x800 * k + 3);
    Even(0x10 * k);
  }

  lemma HugeLow(p: nat)
    ensures (p * 0x20_0000 + 0x83) % 0x20_0000 == 0x83
  {
  }

  lemma HugeBit7(p: nat)
    ensures (p * 0x20_0000 + 0x83) / 0x80 == p * 0x4000 + 1
  {
  }

  lemma HugeBits(i: nat, j: nat)
    requires i < 4 && j < 512
    ensures var e := HugeEntry(i, j); Present(e) && Large(e) && e - e % HUGE_PAGE == (i * 512 + j) * HUGE_PAGE
  {
    hide Flagged;
    var p := i * 512 + j;
    FlaggedIsAdd(p * 512, HUGE);
    HugeLow(p);
    HugeBit7(p);
    assert HugeEntry(i, j) == 2 * (p * 0x10_0000 + 0x41) + 1 && p * 0x4000 + 1 == 2 * (p * 0x2000) + 1;
    Even(p * 0x10_0000 + 0x41);
    Even(p * 0x2000);
  }

  // With page-aligned tables every virtual address below 4 GiB maps to itself through a present 2 MiB page.
  lemma IdentityMap(m: seq<byte>, base: nat, va: nat)
    requires Base(base) && base % PAGE == 0 && base + 6 * PAGE <= |m| && Tables(m, base, 4) && va < FOUR_GIB
    ensures Walk(m, base, va) == Some(va)
  {
    hide U64At, HugeEntry, Present, Large, TableOf, Base, Flagged;
    Indices(va);
    var i, j := va / 0x4000_0000, va / HUGE_PAGE % 512;
    assert DirectoryLinked(m, base, i);
    BaseAligned(base, i);
    LinkBits(base + PAGE);
    LinkBits(base + 2 * PAGE + i * PAGE);
    HugeBits(i, j);
  }

  lemma BaseAligned(base: nat, i: nat)
    requires Base(base) && base % PAGE == 0 && i < 4
    ensures (base + PAGE) % PAGE == 0 && (base + 2 * PAGE + i * PAGE) % PAGE == 0 && base + 6 * PAGE < U64_SPAN
  {
  }

  lemma ZeroEntry(m: seq<byte>, a: nat)
    requires a + 8 <= |m| && forall k :: a <= k < a + 8 ==> m[k] == 0
    ensures U64At(m, a) == 0
  {
  }

  // On memory that was zero where no entry is written, the walk reaches nothing above 4 GiB.
  lemma NothingAbove(m: seq<byte>, base: nat, va: nat)
    requires Base(base) && base % PAGE == 0 && base + 6 * PAGE <= |m| && Tables(m, base, 4)
    requires forall a :: base <= a < base + 2 * PAGE && Untouched(a, base, 4) ==> m[a] == 0
    requires FOUR_GIB <= va < 0x1_0000_0000_0000
    ensures Walk(m, base, va) == None
  {
    hide U64At, Directory, Present, Large, TableOf, Flagged;
    var i4, i3 := va / 0x80_0000_0000 % 512, va / 0x4000_0000 % 512;
    HighIndices(va);
    NotPresent();
    if i4 > 0 {
      ZeroEntry(m, base + 8 * i4);
    } else {
      BaseAligned(base, 0);
      LinkBits(base + PAGE);
      ZeroEntry(m, base + PAGE + 8 * i3);
    }
  }

  lemma NotPresent()
    ensures !Present(0)
  {
  }

  lemma HighIndices(va: nat)
    requires FOUR_GIB <= va < 0x1_0000_0000_0000
    ensures va / 0x80_0000_0000 % 512 > 0 || va / 0x4000_0000 % 512 >= 4
  {
    assert va / 0x80_0000_0000 < 512;
    if va / 0x80_0000_0000 == 0 { assert va / 0x4000_0000 < 512; }
  }
}
