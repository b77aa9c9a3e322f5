// The used ring: one 8-byte entry per finished chain and a 16-bit index that wraps
// (native/kvm/backend.cc:1891-1898, native/hvf/backend.cc:1465-1482, 1501-1507).
module UsedRing {
  import opened Bytes
  import opened Buffers
  import opened Virtqueue
  import opened Words

  datatype Entry = Entry(id: u32, written: u32)

  function UsedIdx(used: seq<byte>): u16
    requires 4 <= |used|
  {
    U16At(used, 2)
  }

  function EntryAt(used: seq<byte>, slot: nat): Entry
    requires 12 + slot * 8 <= |used|
  {
    Entry(U32At(used, 4 + slot * 8), U32At(used, 8 + slot * 8))
  }

  // One push: the entry at slot idx % size, then the index, which wraps at 2^16.
  function Push(used: seq<byte>, size: nat, e: Entry): (r: seq<byte>)
    requires 0 < size && |used| == 4 + size * 8
    ensures |r| == |used|
  {
    var idx := UsedIdx(used);
    SlotFits(idx, size);
    Splice(Splice(used, 4 + idx % size * 8, Le32(e.id) + Le32(e.written)), 2, Le16((idx + 1) % 0x1_0000))
  }

  lemma SlotFits(idx: nat, size: nat)
    requires 0 < size
    ensures 0 <= idx % size < size && 4 + idx % size * 8 + 8 <= 4 + size * 8
  {
  }

  // An 8-byte entry written at its slot reads back; every other slot keeps its entry.
  lemma EntryWrite(used: seq<byte>, size: nat, slot: nat, e: Entry, s: nat)
    requires |used| == 4 + size * 8 && slot < size && s < size
    ensures EntryAt(Splice(used, 4 + slot * 8, Le32(e.id) + Le32(e.written)), s) == if s == slot then e
            else EntryAt(used, s)
  {
    hide U32At, Le32, Splice;
    var bytes := Le32(e.id) + Le32(e.written);
    var r := Splice(used, 4 + slot * 8, bytes);
    SpliceAt(used, 4 + slot * 8, bytes);
    var a := 4 + s * 8;
    FieldOfSlice(r, a, 4);
    FieldOfSlice(r, a + 4, 4);
    if s == slot {
      assert r[a..a + 4] == Le32(e.id) && r[a + 4..a + 8] == Le32(e.written);
    } else {
      FieldOfSlice(used, a, 4);
      FieldOfSlice(used, a + 4, 4);
      assert r[a..a + 4] == used[a..a + 4] && r[a + 4..a + 8] == used[a + 4..a + 8];
    }
  }

  lemma IdxWrite(used: seq<byte>, size: nat, v: u16, s: nat)
    requires |used| == 4 + size * 8 && s < size
    ensures UsedIdx(Splice(used, 2, Le16(v))) == v
    ensures EntryAt(Splice(used, 2, Le16(v)), s) == EntryAt(used, s)
  {
    var r := Splice(used, 2, Le16(v));
    SpliceAt(used, 2, Le16(v));
    FieldOfSlice(r, 2, 2);
    assert r[2..4] == Le16(v);
    assert r[4..] == used[4..];
  }

  lemma PushEffect(used: seq<byte>, size: nat, e: Entry)
    requires 0 < size && |used| == 4 + size * 8
    ensures var idx, r := UsedIdx(used), Push(used, size, e);
            && UsedIdx(r) == (idx + 1) % 0x1_0000
            && (forall s :: 0 <= s < size ==> EntryAt(r, s) == if s == idx % size then e else EntryAt(used, s))
  {
    hide Splice, UsedIdx, EntryAt, Le16, Le32, U16At, U32At;
    var idx := UsedIdx(used);
    SlotFits(idx, size);
    var mid := Splice(used, 4 + idx % size * 8, Le32(e.id) + Le32(e.written));
    IdxWrite(mid, size, (idx + 1) % 0x1_0000, 0);
    forall s | 0 <= s < size
      ensures EntryAt(Push(used, size, e), s) == if s == idx % size then e else EntryAt(used, s)
    {
      EntryWrite(used, size, idx % size, e, s);
      IdxWrite(mid, size, (idx + 1) % 0x1_0000, s);
    }
  }

  function PushAll(used: seq<byte>, size: nat, es: seq<Entry>): (r: seq<byte>)
    requires 0 < size && |used| == 4 + size * 8
    ensures |r| == |used|
  {
    if es == [] then used else Push(PushAll(used, size, es[..|es| - 1]), size, es[|es| - 1])
  }

  // ---- Sizes that divide 2^16 ----

  // The slot of the x-th push since the index was 0.
  function Slot(x: nat, size: nat): (s: nat)
    requires 0 < size
    ensures s < size
  {
    x % 0x1_0000 % size
  }

  lemma MulStep(d: int, n: nat)
    ensures d >= 1 ==> d * n >= n
    ensures d <= -1 ==> d * n + n <= 0
  {
  }

  lemma ModUnique(x: nat, n: nat, q: nat, r: nat)
    requires 0 < n && r < n && x == q * n + r
    ensures x % n == r && x / n == q
  {
    var d := x / n - q;
    assert d * n == (x / n) * n - q * n;
    MulStep(d, n);
  }

  lemma SlotIsMod(x: nat, size: nat)
    requires 0 < size && 0x1_0000 % size == 0
    ensures Slot(x, size) == x % size
  {
    var k := 0x1_0000 / size;
    var q, y := x / 0x1_0000, x % 0x1_0000;
    var a, r := y / size, y % size;
    assert 0x1_0000 == k * size;
    assert q * (k * size) == (q * k) * size;
    assert (q * k + a) * size == (q * k) * size + a * size;
    ModUnique(x, size, q * k + a, r);
  }

  lemma NextMod(x: nat, n: nat)
    requires 0 < n
    ensures (x + 1) % n == (x % n + 1) % n
  {
    var q, r := x / n, x % n;
    if r + 1 == n {
      assert (q + 1) * n == q * n + n;
      ModUnique(x + 1, n, q + 1, 0);
      ModUnique(n, n, 1, 0);
    } else {
      ModUnique(x + 1, n, q, r + 1);
      ModUnique(r + 1, n, 0, r + 1);
    }
  }

  lemma ModDiffers(x: nat, d: nat, n: nat)
    requires 0 < d < n
    ensures x % n != (x + d) % n
  {
    var q, r := x / n, x % n;
    if r + d < n {
      ModUnique(x + d, n, q, r + d);
    } else {
      assert (q + 1) * n == q * n + n;
      ModUnique(x + d, n, q + 1, r + d - n);
    }
  }

  // Slots repeat only after a full round: on sizes that pass the test always, on the others as long as the
  // 16-bit index does not wrap. IsPowerOfTwo is the test of ValidVirtQueue; the KVM device accepts any size.
  predicate Regular(size: nat, i: nat, n: nat) { IsPowerOfTwo(size) || i + n <= 0x1_0000 }

  lemma SlotsDiffer(x: nat, d: nat, size: nat)
    requires 0 < size <= 0x1_0000 && Regular(size, x, d + 1) && 0 < d < size
    ensures Slot(x, size) != Slot(x + d, size)
  {
    hide IsPowerOfTwo;
    if IsPowerOfTwo(size) {
      PowerDivides(size);
      SlotIsMod(x, size);
      SlotIsMod(x + d, size);
    } else {
      ModUnique(x, 0x1_0000, 0, x);
      ModUnique(x + d, 0x1_0000, 0, x + d);
    }
    ModDiffers(x, d, size);
  }

  lemma PowerDivides(size: nat)
    requires IsPowerOfTwo(size) && size <= 0x1_0000
    ensures 0x1_0000 % size == 0
  {
    PowerTest(size);
    hide IsPowerOfTwo;
    var k: nat :| size == Pow2(k);
    Pow2At16();
    if k > 16 { Pow2Grows(17, k); }
    Pow2Sum(16 - k, k);
    ModUnique(0x1_0000, size, Pow2(16 - k), 0);
  }

  lemma Pow2At16()
    ensures Pow2(16) == 0x1_0000 && Pow2(17) == 0x2_0000
  {
    assert Pow2(4) == 16;
    Pow2Sum(4, 4);
    Pow2Sum(8, 8);
  }

  lemma {:induction false} DivisorOfPow2(s: nat, k: nat, n: nat) returns (m: nat)
    requires s * k == Pow2(n)
    ensures m <= n && s == Pow2(m)
  {
    if n == 0 {
      MulStep(k, s);
      MulStep(s, k);
      m := 0;
    } else if s % 2 == 0 {
      var h := s / 2;
      assert (2 * h) * k == 2 * (h * k);
      m := DivisorOfPow2(h, k, n - 1);
      m := m + 1;
    } else {
      OddTimesOdd(s, k);
      var h := k / 2;
      assert s * (2 * h) == 2 * (s * h);
      m := DivisorOfPow2(s, h, n - 1);
    }
  }

  lemma OddTimesOdd(s: nat, k: nat)
    requires s * k % 2 == 0 && s % 2 == 1
    ensures k % 2 == 0
  {
    var a, b := s / 2, k / 2;
    assert (2 * a + 1) * (2 * b + 1) == 2 * (2 * a * b + a + b) + 1;
    assert k % 2 == 1 ==> s * k == (2 * a + 1) * (2 * b + 1);
  }

  lemma DivisorsOf65536(size: nat)
    requires 1 <= size && 0x1_0000 % size == 0
    ensures IsPowerOfTwo(size)
  {
    hide IsPowerOfTwo;
    var k := 0x1_0000 / size;
    assert size * k == 0x1_0000;
    Pow2At16();
    var m := DivisorOfPow2(size, k, 16);
    PowerTest(size);
  }

  lemma {:induction false} Pow2Grows(m: nat, n: nat)
    requires m <= n
    ensures Pow2(m) <= Pow2(n)
  {
    if m < n { Pow2Grows(m, n - 1); }
  }

  // What the size check in ValidVirtQueue buys: consecutive pushes land in consecutive slots at every
  // index, the wrap from 65535 to 0 included, exactly for the sizes that pass it.
  lemma ConsecutiveSlots(size: nat)
    requires 1 <= size <= 0x1_0000
    ensures (forall x: nat :: Slot(x + 1, size) == (Slot(x, size) + 1) % size) <==> IsPowerOfTwo(size)
  {
    hide IsPowerOfTwo;
    if IsPowerOfTwo(size) {
      PowerDivides(size);
      forall x: nat ensures Slot(x + 1, size) == (Slot(x, size) + 1) % size {
        SlotIsMod(x, size);
        SlotIsMod(x + 1, size);
        NextMod(x, size);
      }
    }
    if forall x: nat :: Slot(x + 1, size) == (Slot(x, size) + 1) % size {
      assert Slot(0xFFFF + 1, size) == (Slot(0xFFFF, size) + 1) % size;
      assert 0x1_0000 % 0x1_0000 == 0;
      ModUnique(0, size, 0, 0);
      NextMod(0xFFFF, size);
      DivisorsOf65536(size);
    }
  }

  // No push of the n that start at index i hits slot s.
  ghost predicate Untouched(i: nat, n: nat, size: nat, s: nat)
    requires 0 < size
  {
    forall x {:trigger Slot(x, size)} :: i <= x < i + n ==> Slot(x, size) != s
  }

  lemma {:induction false} PushAllIdx(used: seq<byte>, size: nat, es: seq<Entry>)
    requires 0 < size && |used| == 4 + size * 8
    ensures UsedIdx(PushAll(used, size, es)) == (UsedIdx(used) + |es|) % 0x1_0000
  {
    hide Push, UsedIdx;
    if es != [] {
      PushAllIdx(used, size, es[..|es| - 1]);
      PushEffect(PushAll(used, size, es[..|es| - 1]), size, es[|es| - 1]);
    }
  }

  lemma {:induction false} PushAllRecent(used: seq<byte>, size: nat, es: seq<Entry>, j: nat)
    requires 0 < size <= 0x1_0000 && |used| == 4 + size * 8 && Regular(size, UsedIdx(used), |es|)
    requires j < |es| <= j + size
    ensures EntryAt(PushAll(used, size, es), Slot(UsedIdx(used) + j, size)) == es[j]
  {
    hide Push, UsedIdx, EntryAt, IsPowerOfTwo;
    var n, i := |es| - 1, UsedIdx(used);
    PushAllIdx(used, size, es[..n]);
    PushEffect(PushAll(used, size, es[..n]), size, es[n]);
    if j < n {
      PushAllRecent(used, size, es[..n], j);
      SlotsDiffer(i + j, n - j, size);
    }
  }

  lemma {:induction false} PushAllUntouched(used: seq<byte>, size: nat, es: seq<Entry>, s: nat)
    requires 0 < size && |used| == 4 + size * 8
    requires s < size && Untouched(UsedIdx(used), |es|, size, s)
    ensures EntryAt(PushAll(used, size, es), s) == EntryAt(used, s)
  {
    hide Push, UsedIdx, EntryAt, IsPowerOfTwo;
    if es != [] {
      var n, i := |es| - 1, UsedIdx(used);
      assert Slot(i + n, size) != s;
      PushAllIdx(used, size, es[..n]);
      PushEffect(PushAll(used, size, es[..n]), size, es[n]);
      PushAllUntouched(used, size, es[..n], s);
    }
  }

  // After any run of pushes, on a power-of-two ring or without a wrap of the index: the index counts them mod
  // 2^16, the last size entries sit in consecutive slots in push order, and a slot no push hit is as it was.
  lemma PushAllExact(used: seq<byte>, size: nat, es: seq<Entry>)
    requires 0 < size <= 0x1_0000 && |used| == 4 + size * 8 && Regular(size, UsedIdx(used), |es|)
    ensures var i, r := UsedIdx(used), PushAll(used, size, es);
            && UsedIdx(r) == (i + |es|) % 0x1_0000
            && (forall j {:trigger es[j]} :: 0 <= j < |es| <= j + size ==> EntryAt(r, Slot(i + j, size)) == es[j])
            && (forall s :: 0 <= s < size && Untouched(i, |es|, size, s) ==> EntryAt(r, s) == EntryAt(used, s))
  {
    hide Push, UsedIdx, EntryAt, Slot, PushAll;
    var i, r := UsedIdx(used), PushAll(used, size, es);
    PushAllIdx(used, size, es);
    forall j {:trigger es[j]} | 0 <= j < |es| <= j + size ensures EntryAt(r, Slot(i + j, size)) == es[j] {
      PushAllRecent(used, size, es, j);
    }
    forall s | 0 <= s < size && Untouched(i, |es|, size, s) ensures EntryAt(r, s) == EntryAt(used, s) {
      PushAllUntouched(used, size, es, s);
    }
  }

  // push_used on RAM.
  method PushUsed(mem: array<byte>, q: Layout, e: Entry)
    requires q.Fits(mem.Length)
    modifies mem
    ensures mem[..] == PushInRam(old(mem[..]), q, e)
  {
    hide Splice, U16At, U32At, Le32, Le16, PushInRam;
    ghost var before := mem[..];
    var at := q.device;
    var used := U16At(mem[at + 2..at + 4], 0);
    PushStores(before, q, e, used);
    Store(mem, at + (4 + used % q.size * 8), Le32(e.id) + Le32(e.written));
    Store(mem, at + 2, Le16((used + 1) % 0x1_0000));
  }

  function PushInRam(ram: seq<byte>, q: Layout, e: Entry): (r: seq<byte>)
    requires q.Fits(|ram|)
    ensures |r| == |ram|
  {
    Splice(ram, q.device, Push(q.Used(ram), q.size, e))
  }

  // A push stays inside the used ring.
  lemma PushFrame(ram: seq<byte>, q: Layout, e: Entry, lo: nat, n: nat)
    requires q.Fits(|ram|) && lo + n <= |ram| && Apart(q.device, 4 + q.size * 8, lo, n)
    ensures PushInRam(ram, q, e)[lo..lo + n] == ram[lo..lo + n]
    ensures q.Used(PushInRam(ram, q, e)) == Push(q.Used(ram), q.size, e)
  {
    hide Push;
    SpliceAt(ram, q.device, Push(q.Used(ram), q.size, e));
    assert q.Used(PushInRam(ram, q, e)) == Push(q.Used(ram), q.size, e);
    assert PushInRam(ram, q, e)[lo..lo + n] == ram[lo..lo + n];
  }

  lemma PushStores(ram: seq<byte>, q: Layout, e: Entry, used: u16)
    requires q.Fits(|ram|) && used == U16At(ram[q.device + 2..q.device + 4], 0)
    ensures var entry := 4 + used % q.size * 8;
            && 0 <= used % q.size && entry + 8 <= 4 + q.size * 8
            && Splice(Splice(ram, q.device + entry, Le32(e.id) + Le32(e.written)), q.device + 2, Le16((used
                + 1) % 0x1_0000))
               == PushInRam(ram, q, e)
  {
    hide Splice, U32At, Le32, Le16;
    var at, u := q.device, q.Used(ram);
    FieldOfSlice(u, 2, 2);
    assert u[2..4] == ram[at + 2..at + 4];
    SlotFits(used, q.size);
    var entry, bytes, idx := 4 + used % q.size * 8, Le32(e.id) + Le32(e.written), Le16((used + 1) % 0x1_0000);
    NestedSplice(ram, at, u, entry, bytes);
    var u' := Splice(u, entry, bytes);
    var mid := Splice(ram, at, u');
    SpliceAt(ram, at, u');
    assert mid[at..at + |u'|] == u';
    NestedSplice(mid, at, u', 2, idx);
    Overwrite(ram, at, u', Splice(u', 2, idx));
  }

  // A store inside a region is a store of the changed region.
  lemma NestedSplice(m: seq<byte>, at: nat, region: seq<byte>, off: nat, data: seq<byte>)
    requires at + |region| <= |m| && region == m[at..at + |region|] && off + |data| <= |region|
    ensures Splice(m, at + off, data) == Splice(m, at, Splice(region, off, data))
  {
    SpliceAt(m, at + off, data);
    SpliceAt(region, off, data);
    SpliceAt(m, at, Splice(region, off, data));
  }

  lemma Overwrite(m: seq<byte>, at: nat, a: seq<byte>, b: seq<byte>)
    requires |a| == |b| && at + |a| <= |m|
    ensures Splice(Splice(m, at, a), at, b) == Splice(m, at, b)
  {
    SpliceAt(m, at, a);
    SpliceAt(Splice(m, at, a), at, b);
    SpliceAt(m, at, b);
  }
}
