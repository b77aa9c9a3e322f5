// The block device's storage: a base file, an optional overlay file and a
// packed bitmap that says which 512-byte sectors live in the overlay
// (native/kvm/backend.cc:1973-2050).
module OverlayDisk {
  import opened Bytes

  // uint8_t(1) << i
  function Mask(i: nat): bv8
    requires i < 8
  {
    [1, 2, 4, 8, 16, 32, 64, 128][i]
  }

  // Bit s of the packed bitmap.
  predicate BitSet(bitmap: seq<bv8>, s: nat)
    requires s / 8 < |bitmap|
  {
    bitmap[s / 8] & Mask(s % 8) != 0
  }

  // The dirty sectors below n. (Recursive, so that proofs see single bits only where DirtyIff is called.)
  ghost function DirtySet(bitmap: seq<bv8>, n: nat): set<nat>
    requires n <= 8 * |bitmap|
  {
    if n == 0 then {} else DirtySet(bitmap, n - 1) + (if BitSet(bitmap, n - 1) then {n - 1} else {})
  }

  lemma {:induction false} DirtyIff(bitmap: seq<bv8>, n: nat, t: nat)
    requires n <= 8 * |bitmap|
    ensures t in DirtySet(bitmap, n) <==> t < n && BitSet(bitmap, t)
  {
    if n > 0 { DirtyIff(bitmap, n - 1, t); }
  }

  lemma SetBit(b: bv8, i: nat, j: nat)
    requires i < 8 && j < 8
    ensures (b | Mask(i)) & Mask(j) != 0 <==> i == j || b & Mask(j) != 0
  {
    var m, n := Mask(i), Mask(j);
    assert (b | m) & n == (b & n) | (m & n);
    assert m & n != 0 <==> i == j;
  }

  lemma MarkAddsOne(bitmap: seq<bv8>, n: nat, s: nat)
    requires n <= 8 * |bitmap| && s < n
    ensures DirtySet(bitmap[s / 8 := bitmap[s / 8] | Mask(s % 8)], n) == DirtySet(bitmap, n) + {s}
  {
    var after := bitmap[s / 8 := bitmap[s / 8] | Mask(s % 8)];
    forall t: nat
      ensures t in DirtySet(after, n) <==> t == s || t in DirtySet(bitmap, n)
    {
      DirtyIff(after, n, t);
      DirtyIff(bitmap, n, t);
      if t < n && t / 8 == s / 8 { SetBit(bitmap[s / 8], s % 8, t % 8); }
    }
  }

  lemma {:induction false} NoneDirty(bitmap: seq<bv8>, n: nat)
    requires n <= 8 * |bitmap| && forall i :: 0 <= i < |bitmap| ==> bitmap[i] == 0
    ensures DirtySet(bitmap, n) == {}
  {
    if n > 0 { NoneDirty(bitmap, n - 1); }
  }

  // What the guest sees: one flat array.
  ghost function Flat(base: seq<byte>, overlay: seq<byte>, dirty: set<nat>): (v: seq<byte>)
    requires |overlay| == |base|
    ensures |v| == |base|
  {
    if base == [] then [] else
      var b := |base| - 1;
      Flat(base[..b], overlay[..b], dirty) + [if b / 512 in dirty then overlay[b] else base[b]]
  }

  lemma {:induction false} FlatAt(base: seq<byte>, overlay: seq<byte>, dirty: set<nat>, b: nat)
    requires |overlay| == |base| && b < |base|
    ensures Flat(base, overlay, dirty)[b] == if b / 512 in dirty then overlay[b] else base[b]
  {
    if b < |base| - 1 { FlatAt(base[..|base| - 1], overlay[..|base| - 1], dirty, b); }
  }

  lemma {:induction false} CleanFlat(base: seq<byte>, overlay: seq<byte>)
    requires |overlay| == |base|
    ensures Flat(base, overlay, {}) == base
  {
    if base != [] { CleanFlat(base[..|base| - 1], overlay[..|base| - 1]); }
  }

  // Some byte of [off, off + len) lies in sector t.
  predicate Touches(off: nat, len: nat, t: nat) {
    len > 0 && off / 512 <= t <= (off + len - 1) / 512
  }

  ghost function Touched(off: nat, len: nat, sectors: nat): (d: set<nat>) {
    set t: nat | t < sectors && Touches(off, len, t)
  }

  // Overlay bytes of sectors lo..hi that the coming write of [off, end) will not replace already
  // hold what the guest sees.
  ghost predicate Prepared(overlay: seq<byte>, flat: seq<byte>, lo: nat, hi: nat, off: nat, end: nat)
    requires |overlay| == |flat|
  {
    forall b :: lo * 512 <= b < hi * 512 && b < |flat| && !(off <= b < end) ==> overlay[b] == flat[b]
  }

  // The copy of one clean sector is invisible and prepares that sector.
  lemma CopySector(base: seq<byte>, overlay: seq<byte>, dirty: set<nat>, lo: nat, s: nat, off: nat, end: nat)
    requires |overlay| == |base| && s * 512 + 512 <= |base| && s !in dirty && lo <= s
    requires Prepared(overlay, Flat(base, overlay, dirty), lo, s, off, end)
    ensures var after := Splice(overlay, s * 512, base[s * 512..s * 512 + 512]);
            Flat(base, after, dirty) == Flat(base, overlay, dirty)
            && Prepared(after, Flat(base, after, dirty), lo, s + 1, off, end)
  {
    var after := Splice(overlay, s * 512, base[s * 512..s * 512 + 512]);
    SpliceAt(overlay, s * 512, base[s * 512..s * 512 + 512]);
    forall b | 0 <= b < |base|
      ensures Flat(base, after, dirty)[b] == Flat(base, overlay, dirty)[b]
      ensures s * 512 <= b < s * 512 + 512 ==> after[b] == Flat(base, after, dirty)[b]
    {
      FlatAt(base, after, dirty, b);
      FlatAt(base, overlay, dirty, b);
      if s * 512 <= b < s * 512 + 512 { assert b / 512 == s; }
    }
  }

  // A sector that is dirty, or that the write covers, needs no copy.
  lemma SkipSector(base: seq<byte>, overlay: seq<byte>, dirty: set<nat>, lo: nat, s: nat, off: nat, end: nat)
    requires |overlay| == |base| && (s in dirty || (off <= s * 512 && end >= s * 512 + 512))
    requires Prepared(overlay, Flat(base, overlay, dirty), lo, s, off, end)
    ensures Prepared(overlay, Flat(base, overlay, dirty), lo, s + 1, off, end)
  {
    forall b | s * 512 <= b < s * 512 + 512 && b < |base| && !(off <= b < end)
      ensures overlay[b] == Flat(base, overlay, dirty)[b]
    {
      FlatAt(base, overlay, dirty, b);
      assert b / 512 == s;
    }
  }

  // A run of bytes inside one sector comes entirely from one of the two files.
  lemma ChunkOfFlat(base: seq<byte>, overlay: seq<byte>, dirty: set<nat>, cur: nat, end: nat)
    requires |overlay| == |base| && cur <= end <= |base| && cur % 512 + (end - cur) <= 512
    ensures Flat(base, overlay, dirty)[cur..end] == (if cur / 512 in dirty then overlay else base)[cur..end]
  {
    forall b | cur <= b < end
      ensures Flat(base, overlay, dirty)[b] == (if cur / 512 in dirty then overlay else base)[b]
    {
      FlatAt(base, overlay, dirty, b);
      assert b / 512 == cur / 512;
    }
  }

  // Writing [off, off + |data|) to a prepared overlay and marking its sectors splices data into the flat disk.
  lemma OverlayWrite(base: seq<byte>, overlay: seq<byte>, dirty: set<nat>, off: nat, data: seq<byte>)
    requires |overlay| == |base| && 0 < |data| && off + |data| <= |base| / 512 * 512
    requires Prepared(overlay, Flat(base, overlay, dirty), off / 512, (off + |data| - 1) / 512 + 1, off, off + |data|)
    ensures Flat(base, Splice(overlay, off, data), dirty + Touched(off, |data|, |base| / 512))
         == Splice(Flat(base, overlay, dirty), off, data)
  {
    SpliceAt(overlay, off, data);
    SpliceAt(Flat(base, overlay, dirty), off, data);
    var dirty' := dirty + Touched(off, |data|, |base| / 512);
    forall b | 0 <= b < |base|
      ensures Flat(base, Splice(overlay, off, data), dirty')[b] == Splice(Flat(base, overlay, dirty), off, data)[b]
    {
      FlatAt(base, overlay, dirty, b);
      FlatAt(base, Splice(overlay, off, data), dirty', b);
      var lo, hi := off / 512, (off + |data| - 1) / 512;
      assert lo <= b / 512 <= hi <==> lo * 512 <= b < (hi + 1) * 512;
    }
  }

  class Disk {
    var base: seq<byte>       // contents of the base file
    var overlay: seq<byte>    // contents of the overlay file
    var bitmap: seq<bv8>      // dirty_sectors_
    const hasOverlay: bool
    const readOnly: bool

    ghost predicate Valid()
      reads this
    {
      && !(readOnly && hasOverlay)
      && |base| < 0x8000_0000_0000_0000
      && (hasOverlay ==> |overlay| == |base| && |bitmap| == (|base| / 512 + 7) / 8)
    }

    ghost function Dirty(): set<nat>
      requires Valid() && hasOverlay
      reads this
    {
      DirtySet(bitmap, |base| / 512)
    }

    ghost function Contents(): (v: seq<byte>)
      requires Valid()
      reads this
      ensures |v| == |base|
    {
      if hasOverlay then Flat(base, overlay, Dirty()) else base
    }

    function Sectors(): nat
      reads this
    {
      |base| / 512
    }

    // Opening the files: O_TRUNC and ftruncate leave an overlay of zeros, and no sector is dirty.
    constructor (image: seq<byte>, withOverlay: bool, ro: bool)
      requires |image| < 0x8000_0000_0000_0000
      requires !(ro && withOverlay)
      ensures Valid() && hasOverlay == withOverlay && readOnly == ro
      ensures base == image && Contents() == image
    {
      hasOverlay, readOnly := withOverlay, ro;
      base := image;
      overlay := Zeros(|image|);
      bitmap := seq((|image| / 512 + 7) / 8, _ => 0);
      new;
      if withOverlay {
        NoneDirty(bitmap, |image| / 512);
        CleanFlat(base, overlay);
      }
    }

    function IsDirty(s: nat): (d: bool)
      requires Valid()
      reads this
      ensures d <==> hasOverlay && s in Dirty()
    {
      if hasOverlay then DirtyIff(bitmap, |base| / 512, s); s < Sectors() && BitSet(bitmap, s) else false
    }

    // pread of the whole range; the read is short, hence fails, exactly when it runs past the end.
    static function Pread(file: seq<byte>, off: nat, len: nat): (r: Result<seq<byte>>)
      ensures r.Ok? <==> off + len <= |file|
      ensures r.Ok? ==> r.value == file[off..off + len]
    {
      if off + len <= |file| then Ok(file[off..off + len]) else Err("short disk read")
    }

    method MarkDirty(s: nat)
      requires Valid() && hasOverlay
      modifies this`bitmap
      ensures Valid() && Dirty() == old(Dirty()) + (if s < Sectors() then {s} else {})
    {
      if s >= Sectors() { return; }
      MarkAddsOne(bitmap, Sectors(), s);
      bitmap := bitmap[s / 8 := bitmap[s / 8] | Mask(s % 8)];
    }

    method MarkDirtyRange(off: nat, len: nat)
      requires Valid()
      modifies this`bitmap
      ensures Valid()
      ensures hasOverlay ==> Dirty() == old(Dirty()) + Touched(off, len, Sectors())
    {
      if !hasOverlay || len == 0 { return; }
      var first, last := off / 512, (off + len - 1) / 512;
      var s := first;
      while s <= last
        invariant Valid() && first <= s <= last + 1
        invariant forall t: nat :: t in Dirty() <==> t in old(Dirty()) || (first <= t < s && t < Sectors())
      {
        MarkDirty(s);
        s := s + 1;
      }
    }

    // One turn of the prepare loop: unless the write covers sector s or s is already dirty, copy s from
    // the base file. That fails on the short tail after the last whole sector.
    method PrepareSector(s: nat, ghost lo: nat, off: nat, end: nat) returns (r: Result<()>)
      requires Valid() && hasOverlay && lo <= s && s * 512 < end <= |base|
      requires Prepared(overlay, Contents(), lo, s, off, end)
      modifies this`overlay
      ensures Valid() && Contents() == old(Contents())
      ensures r.Ok? <==> s < Sectors()
      ensures r.Ok? ==> Prepared(overlay, Contents(), lo, s + 1, off, end)
    {
      var start := s * 512;
      var covers := off <= start && end >= start + 512;
      if covers || IsDirty(s) {
        DirtyIff(bitmap, Sectors(), s);
        SkipSector(base, overlay, Dirty(), lo, s, off, end);
        return Ok(());
      }
      var buf :- Pread(base, start, 512);
      CopySector(base, overlay, Dirty(), lo, s, off, end);
      overlay := Splice(overlay, start, buf);
      return Ok(());
    }

    // Before a write that covers only part of a clean sector, the rest of that sector is copied from
    // the base file. On its own the copy is invisible: it only touches overlay bytes of clean sectors.
    method PreparePartial(off: nat, len: nat) returns (r: Result<()>)
      requires Valid() && InRange(|base|, off, len)
      modifies this`overlay
      ensures Valid() && Contents() == old(Contents())
      ensures r.Ok? <==> !hasOverlay || len == 0 || off + len <= Sectors() * 512
      ensures r.Ok? && hasOverlay && len > 0 ==> Prepared(overlay, Contents(), off / 512, (off + len - 1) / 512
              + 1, off, off + len)
    {
      if !hasOverlay || len == 0 { return Ok(()); }
      var first, last := off / 512, (off + len - 1) / 512;
      var s := first;
      while s <= last
        invariant Valid() && Contents() == old(Contents())
        invariant first <= s <= last + 1
        invariant s > first ==> s <= Sectors()
        invariant Prepared(overlay, Contents(), first, s, off, off + len)
      {
        var _ :- PrepareSector(s, first, off, off + len);
        s := s + 1;
      }
      return Ok(());
    }

    // ReadDisk's loop: chunk by chunk, each from the file its sector lives in.
    method ReadOverlaid(off: nat, len: nat) returns (got: seq<byte>)
      requires Valid() && hasOverlay && off + len <= |base|
      ensures got == Contents()[off..off + len]
    {
      ghost var flat := Contents();
      got := [];
      var cur := off;
      while cur < off + len
        invariant off <= cur <= off + len && got == flat[off..cur]
      {
        var chunk := ReadChunk(cur, off + len - cur);
        SliceJoin(flat, off, cur, cur + |chunk|);
        got, cur := got + chunk, cur + |chunk|;
      }
    }

    // What is left of the sector at cur, or of the request.
    method ReadChunk(cur: nat, left: nat) returns (chunk: seq<byte>)
      requires Valid() && hasOverlay && 0 < left && cur + left <= |base|
      ensures 0 < |chunk| <= left && chunk == Contents()[cur..cur + |chunk|]
    {
      var end := cur + Min(left, 512 - cur % 512);
      ChunkOfFlat(base, overlay, Dirty(), cur, end);
      chunk := (if IsDirty(cur / 512) then overlay else base)[cur..end];
    }

    // ReadDisk succeeds exactly on ranges inside the disk, and then dst receives that slice of the flat disk.
    method Read(sector: u64, dst: array<byte>, at: nat, len: nat) returns (r: Result<()>)
      requires Valid() && at + len <= dst.Length
      modifies dst
      ensures r.Ok? <==> sector * 512 + len <= |base|
      ensures r.Ok? ==> dst[..] == Splice(old(dst[..]), at, Contents()[sector * 512..sector * 512 + len])
      ensures r.Err? ==> dst[..] == old(dst[..])
    {
      var off :- CheckedMul(sector, 512);
      if !InRange(|base|, off, len) { return Err("virtio-blk read out of bounds"); }
      var data: seq<byte>;
      if hasOverlay {
        data := ReadOverlaid(off, len);
      } else {
        data := base[off..off + len];
      }
      Store(dst, at, data);
      return Ok(());
    }

    // The guard under which a write of len bytes at off goes through.
    predicate CanWrite(off: nat, len: nat)
      reads this
    {
      && !readOnly
      && InRange(|base|, off, len)
      && (!hasOverlay || len == 0 || off + len <= Sectors() * 512)
    }

    // The pwrite through write_fd() and the marking, once the range is prepared.
    method Put(off: nat, data: seq<byte>)
      requires Valid() && CanWrite(off, |data|)
      requires hasOverlay && |data| > 0 ==>
                 Prepared(overlay, Contents(), off / 512, (off + |data| - 1) / 512 + 1, off, off + |data|)
      modifies this
      ensures Valid() && Contents() == Splice(old(Contents()), off, data)
      ensures hasOverlay ==> base == old(base)
    {
      if |data| == 0 {
        // pwrite of nothing; mark_dirty_range returns at once.
        assert Splice(Contents(), off, data) == Contents();
        return;
      }
      if !hasOverlay {
        base := Splice(base, off, data);
      } else {
        OverlayWrite(base, overlay, Dirty(), off, data);
        overlay := Splice(overlay, off, data);
      }
      MarkDirtyRange(off, |data|);
    }

    // WriteDisk succeeds exactly inside a disk that may be written, and with an overlay inside its last whole
    // sector; it updates the flat disk on precisely the written range, and otherwise leaves it alone. With an
    // overlay the base file is never written.
    method Write(sector: u64, data: seq<byte>) returns (r: Result<()>)
      requires Valid()
      modifies this
      ensures Valid() && |base| == old(|base|)
      ensures r.Ok? <==> && !readOnly && sector * 512 + |data| <= old(|base|)
                         && (hasOverlay && data != [] ==> sector * 512 + |data| <= old(|base|) / 512 * 512)
      ensures r.Ok? ==> Contents() == Splice(old(Contents()), sector * 512, data)
      ensures r.Err? ==> Contents() == old(Contents())
      ensures hasOverlay ==> base == old(base)
    {
      if readOnly { return Err("virtio-blk write to read-only disk"); }
      var off :- CheckedMul(sector, 512);
      if !InRange(|base|, off, |data|) { return Err("virtio-blk write out of bounds"); }
      var _ :- PreparePartial(off, |data|);
      Put(off, data);
      return Ok(());
    }
  }
}
