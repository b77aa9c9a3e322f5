// RAM snapshots of the KVM back end (native/kvm/backend.cc:292-315, 478-554): the list of dirty pages, the
// sparse memory file, and the delta that is applied to a base image.
module Snapshot {
  import opened Bytes
  import opened Words

  const PAGE: nat := 4096

  // ---- The dirty list ----

  // The inner loop: the pages of one word, lowest bit first.
  function PagesOf(word: nat, base: nat, limit: nat): seq<nat>
    decreases word
  {
    if word == 0 then [] else
      Shrinks(word);
      (if base + TrailingZeros(word) < limit then [base + TrailingZeros(word)]
          else []) + PagesOf(And(word, word - 1), base, limit)
  }

  function DirtyPages(bitmap: seq<u64>, n: nat, limit: nat): seq<nat>
    requires n <= |bitmap|
  {
    if n == 0 then [] else DirtyPages(bitmap, n - 1, limit) + PagesOf(bitmap[n - 1], 64 * (n - 1), limit)
  }

  ghost predicate Increasing(pages: seq<nat>) { forall i, j :: 0 <= i < j < |pages| ==> pages[i] < pages[j] }

  lemma {:induction false} PagesOfHas(word: nat, base: nat, limit: nat, p: nat)
    ensures p in PagesOf(word, base, limit) <==> base <= p < limit && BitAt(word, p - base)
    decreases word
  {
    hide And, TrailingZeros, BitAt;
    if word == 0 {
      if base <= p { NoBits(word, p - base); }
    } else {
      Shrinks(word);
      PagesOfHas(And(word, word - 1), base, limit, p);
      LessOne(word, TrailingZeros(word));
      if base <= p { DropLowest(word, p - base); }
    }
  }

  lemma {:induction false} PagesOfIncreasing(word: nat, base: nat, limit: nat)
    ensures Increasing(PagesOf(word, base, limit))
    decreases word
  {
    hide And, TrailingZeros, BitAt;
    if word != 0 {
      Shrinks(word);
      var rest := PagesOf(And(word, word - 1), base, limit);
      PagesOfIncreasing(And(word, word - 1), base, limit);
      forall i | 0 <= i < |rest| ensures base + TrailingZeros(word) < rest[i] {
        PagesOfHas(And(word, word - 1), base, limit, rest[i]);
        DropLowest(word, rest[i] - base);
        LessOne(word, rest[i] - base);
      }
    }
  }

  // Page p's bit in the log.
  predicate Dirty(bitmap: seq<u64>, p: nat) { p / 64 < |bitmap| && BitAt(bitmap[p / 64], p % 64) }

  lemma PageOfWord(word: u64, i: nat, p: nat)
    ensures 64 * i <= p && BitAt(word, p - 64 * i) <==> p / 64 == i && BitAt(word, p % 64)
  {
    hide BitAt;
    if 64 * i <= p && BitAt(word, p - 64 * i) {
      WordSpan();
      BitBelow(word, 64, p - 64 * i);
    }
  }

  // The list holds exactly the dirty pages below the limit.
  lemma {:induction false} DirtyPagesHas(bitmap: seq<u64>, n: nat, limit: nat, p: nat)
    requires n <= |bitmap|
    ensures p in DirtyPages(bitmap, n, limit) <==> p < limit && p / 64 < n && Dirty(bitmap, p)
  {
    hide BitAt, PagesOf;
    if n > 0 {
      DirtyPagesHas(bitmap, n - 1, limit, p);
      PagesOfHas(bitmap[n - 1], 64 * (n - 1), limit, p);
      PageOfWord(bitmap[n - 1], n - 1, p);
    }
  }

  lemma {:induction false} DirtyPagesIncreasing(bitmap: seq<u64>, n: nat, limit: nat)
    requires n <= |bitmap|
    ensures Increasing(DirtyPages(bitmap, n, limit))
  {
    hide BitAt, PagesOf, Dirty;
    if n > 0 {
      var before, here := DirtyPages(bitmap, n - 1, limit), PagesOf(bitmap[n - 1], 64 * (n - 1), limit);
      DirtyPagesIncreasing(bitmap, n - 1, limit);
      PagesOfIncreasing(bitmap[n - 1], 64 * (n - 1), limit);
      forall i | 0 <= i < |before| ensures before[i] < 64 * (n - 1) {
        DirtyPagesHas(bitmap, n - 1, limit, before[i]);
      }
      forall i | 0 <= i < |here| ensures 64 * (n - 1) <= here[i] {
        PagesOfHas(bitmap[n - 1], 64 * (n - 1), limit, here[i]);
      }
    }
  }

  // GetDirtyPages, from the log that the hypervisor filled in.
  method GetDirtyPages(bitmap: seq<u64>, pageCount: nat) returns (pages: seq<nat>)
    ensures pages == DirtyPages(bitmap, |bitmap|, pageCount)
    ensures forall p: nat :: p in pages <==> p < pageCount && Dirty(bitmap, p)
    ensures Increasing(pages)
  {
    hide And, TrailingZeros, Dirty;
    pages := [];
    for wordIndex := 0 to |bitmap|
      invariant pages == DirtyPages(bitmap, wordIndex, pageCount)
    {
      ghost var before := pages;
      var word: nat := bitmap[wordIndex];
      while word != 0
        invariant pages + PagesOf(word, 64 * wordIndex, pageCount)
                == before + PagesOf(bitmap[wordIndex], 64 * wordIndex, pageCount)
        decreases word
      {
        var page := wordIndex * 64 + TrailingZeros(word);
        if page < pageCount { pages := pages + [page]; }
        Shrinks(word);
        word := And(word, word - 1);
      }
    }
    forall p: nat ensures p in pages <==> p < pageCount && Dirty(bitmap, p) {
      DirtyPagesHas(bitmap, |bitmap|, pageCount, p);
      InLog(bitmap, p);
    }
    DirtyPagesIncreasing(bitmap, |bitmap|, pageCount);
  }

  lemma InLog(bitmap: seq<u64>, p: nat)
    ensures Dirty(bitmap, p) ==> p / 64 < |bitmap|
  {
  }

  // ---- The sparse file ----

  method IsZeroPage(src: seq<byte>) returns (zero: bool)
    ensures zero <==> src == Zeros(|src|)
  {
    for i := 0 to |src|
      invariant forall k :: 0 <= k < i ==> src[k] == 0
    {
      if src[i] != 0 { return false; }
    }
    assert src == Zeros(|src|);
    return true;
  }

  // The number of pages, the last perhaps short, that hold a byte other than zero.
  function NonZeroPages(src: seq<byte>, off: nat): nat
    requires off <= |src|
    decreases |src| - off
  {
    if off == |src| then 0 else
      var chunk := Min(PAGE, |src| - off);
      NonZeroPages(src, off + chunk) + if src[off..off + chunk] == Zeros(chunk) then 0 else 1
  }

  // A page that is written, or left as a hole because it is zero, brings the file one page further.
  lemma SparseTurn(before: seq<byte>, after: seq<byte>, src: seq<byte>, off: nat, chunk: nat)
    requires |before| == |src| && off + chunk <= |src| && before[..off] == src[..off]
    requires forall k :: off <= k < |src| ==> before[k] == 0
    requires if src[off..off + chunk] == Zeros(chunk) then after == before
             else after == Splice(before, off, src[off..off + chunk])
    ensures |after| == |src| && after[..off + chunk] == src[..off + chunk]
    ensures forall k :: off + chunk <= k < |src| ==> after[k] == 0
  {
    var piece := src[off..off + chunk];
    SpliceAt(before, off, piece);
    forall k | 0 <= k < off + chunk ensures after[k] == src[k] {
      if k < off { assert before[..off][k] == src[..off][k]; } else { assert piece[k - off] == src[k]; }
    }
  }

  // WriteSparseMemoryFile: zero pages are left as holes, and the file still reads back as the memory.
  method WriteSparseMemoryFile(src: seq<byte>) returns (file: array<byte>, pagesWritten: nat)
    ensures fresh(file) && file[..] == src
    ensures pagesWritten == NonZeroPages(src, 0)
  {
    file := new byte[|src|](_ => 0);
    pagesWritten := 0;
    var off := 0;
    while off < |src|
      invariant off <= |src| && file[..][..off] == src[..off]
      invariant forall k :: off <= k < |src| ==> file[..][k] == 0
      invariant pagesWritten + NonZeroPages(src, off) == NonZeroPages(src, 0)
    {
      var chunk := Min(PAGE, |src| - off);
      ghost var before := file[..];
      var zero := IsZeroPage(src[off..off + chunk]);
      if !zero {
        Store(file, off, src[off..off + chunk]);
        pagesWritten := pagesWritten + 1;
      }
      SparseTurn(before, file[..], src, off, chunk);
      off := off + chunk;
    }
    assert file[..][..|src|] == file[..] && src[..|src|] == src;
  }

  // ---- The delta ----

  const MAGIC: seq<byte> := [0x4E, 0x4F, 0x44, 0x45, 0x4B, 0x56, 0x4D, 0x2D, 0x44, 0x49, 0x52, 0x54, 0x59, 0x2D,
                             0x30, 0x30, 0x31, 0x00]
  const HEADER_SIZE: nat := 48
  const RECORD: nat := 8 + PAGE

  // DirtySnapshotHeader: the magic, and the other fields at their natural alignment.
  function Header(pageCount: u64, dirtyPages: u64): (h: seq<byte>)
    ensures |h| == HEADER_SIZE
  {
    MAGIC + [0, 0] + Le32(1) + Le32(PAGE) + Zeros(4) + Le64(pageCount) + Le64(dirtyPages)
  }

  predicate HeaderFits(file: seq<byte>, pageCount: nat) {
    && |file| >= HEADER_SIZE && file[..18] == MAGIC
    && U32At(file, 20) == 1 && U32At(file, 24) == PAGE && U64At(file, 32) == pageCount
  }

  function DirtyCount(file: seq<byte>): u64
    requires |file| >= HEADER_SIZE
  {
    U64At(file, 40)
  }

  // A page of memory.
  function PageAt(m: seq<byte>, p: nat): (b: seq<byte>)
    requires (p + 1) * PAGE <= |m|
    ensures |b| == PAGE
  {
    m[p * PAGE..p * PAGE + PAGE]
  }

  // The records of the first n pages of the list.
  function Records(ram: seq<byte>, pages: seq<nat>, n: nat): (r: seq<byte>)
    requires n <= |pages| && forall i :: 0 <= i < n ==> (pages[i] + 1) * PAGE <= |ram| && pages[i] < U64_SPAN
    ensures |r| == n * RECORD
  {
    if n == 0 then [] else Records(ram, pages, n - 1) + Le64(pages[n - 1]) + PageAt(ram, pages[n - 1])
  }

  // Where the pages of the list may point.
  predicate Within(pages: seq<nat>, ramSize: nat) { forall i :: 0 <= i < |pages| ==> (pages[i] + 1) * PAGE <= ramSize }

  function Delta(ram: seq<byte>, pages: seq<nat>): seq<byte>
    requires Within(pages, |ram|) && |ram| < U64_SPAN && |pages| < U64_SPAN
  {
    Header(|ram| / PAGE, |pages|) + Records(ram, pages, |pages|)
  }

  // WriteDirtySnapshotFile
  method WriteDirtySnapshotFile(ram: seq<byte>, pages: seq<nat>) returns (file: seq<byte>)
    requires Within(pages, |ram|) && |ram| < U64_SPAN && |pages| < U64_SPAN
    ensures file == Delta(ram, pages)
  {
    hide Le64, Header, PageAt;
    var header := Header(|ram| / PAGE, |pages|);
    file := header;
    for i := 0 to |pages|
      invariant file == header + Records(ram, pages, i)
    {
      file := file + Le64(pages[i]);
      file := file + PageAt(ram, pages[i]);
    }
  }

  // The page index and the start of the bytes of record k.
  function RecordPage(file: seq<byte>, k: nat): u64
    requires HEADER_SIZE + (k + 1) * RECORD <= |file|
  {
    U64At(file, HEADER_SIZE + k * RECORD)
  }

  function RecordBytes(file: seq<byte>, k: nat): (b: seq<byte>)
    requires HEADER_SIZE + (k + 1) * RECORD <= |file|
    ensures |b| == PAGE
  {
    file[HEADER_SIZE + k * RECORD + 8..HEADER_SIZE + k * RECORD + 8 + PAGE]
  }

  // The first n records are there and name pages of memory.
  predicate RecordsFit(file: seq<byte>, n: nat, pageCount: nat) {
    n == 0 || (RecordsFit(file, n - 1, pageCount) && HEADER_SIZE + n * RECORD <= |file|
        && RecordPage(file, n - 1) < pageCount)
  }

  function Applied(m: seq<byte>, file: seq<byte>, n: nat): (r: seq<byte>)
    requires RecordsFit(file, n, |m| / PAGE)
    ensures |r| == |m|
  {
    if n == 0 then m else Splice(Applied(m, file, n - 1), RecordPage(file, n - 1) * PAGE, RecordBytes(file, n - 1))
  }

  lemma {:induction false} UnfitStays(file: seq<byte>, i: nat, n: nat, pageCount: nat)
    requires i <= n && !RecordsFit(file, i, pageCount)
    ensures !RecordsFit(file, n, pageCount)
  {
    if i < n { UnfitStays(file, i, n - 1, pageCount); }
  }

  // Record k of n, by its offset: it is there and names a page of memory.
  predicate RecordOk(file: seq<byte>, k: nat, pageCount: nat) {
    48 + (k + 1) * 4104 <= |file| && U64At(file, 48 + k * 4104) < pageCount
  }

  lemma {:induction false} RecordsIff(file: seq<byte>, n: nat, pageCount: nat)
    ensures RecordsFit(file, n, pageCount) <==> forall k :: 0 <= k < n ==> RecordOk(file, k, pageCount)
  {
    hide RecordOk;
    if n > 0 {
      RecordNext(file, n, pageCount);
      RecordsIff(file, n - 1, pageCount);
    }
  }

  lemma RecordNext(file: seq<byte>, n: nat, pageCount: nat)
    requires n > 0
    ensures RecordsFit(file, n, pageCount) <==> RecordsFit(file, n - 1, pageCount) && RecordOk(file, n - 1, pageCount)
  {
    hide U64At;
  }

  // Which files are applied: the magic text, version 1, pages of 4096 bytes, as many as memory has, and every
  // counted record in the file and in memory.
  lemma AppliesIff(file: seq<byte>, pageCount: nat)
    ensures HeaderFits(file, pageCount) && RecordsFit(file, DirtyCount(file), pageCount) <==>
            && |file| >= 48 && (forall i :: 0 <= i < 17 ==> file[i] == "NODEKVM-DIRTY-001"[i] as int) && file[17] == 0
            && U32At(file, 20) == 1 && U32At(file, 24) == 4096 && U64At(file, 32) == pageCount
            && forall k :: 0 <= k < U64At(file, 40) ==> RecordOk(file, k, pageCount)
  {
    hide U32At, U64At, RecordsFit, RecordOk;
    if |file| >= 48 {
      RecordsIff(file, DirtyCount(file), pageCount);
      MagicIff(file);
    }
  }

  lemma MagicIff(file: seq<byte>)
    requires |file| >= 48
    ensures file[..18] == MAGIC <==>
            (forall i :: 0 <= i < 17 ==> file[i] == "NODEKVM-DIRTY-001"[i] as int) && file[17] == 0
  {
    var text := "NODEKVM-DIRTY-001";
    assert forall i :: 0 <= i < 17 ==> MAGIC[i] == text[i] as int;
    assert forall i :: 0 <= i < 18 ==> file[..18][i] == file[i];
    if (forall i :: 0 <= i < 17 ==> file[i] == text[i] as int) && file[17] == 0 {
      assert forall i :: 0 <= i < 18 ==> file[i] == MAGIC[i];
    }
  }

  // ApplyDirtySnapshotFile: it fails exactly on a bad header, a short file or a page out of bounds.
  method ApplyDirtySnapshotFile(mem: array<byte>, file: seq<byte>) returns (r: Result<u64>)
    requires mem.Length < U64_SPAN
    modifies mem
    ensures r.Ok? <==> HeaderFits(file, mem.Length / PAGE) && RecordsFit(file, DirtyCount(file), mem.Length / PAGE)
    ensures r.Ok? ==> r.value == DirtyCount(file) && mem[..] == Applied(old(mem[..]), file, DirtyCount(file))
  {
    hide RecordPage, RecordBytes, DirtyCount;
    if !HeaderFits(file, mem.Length / PAGE) { return Err("invalid dirty snapshot header"); }
    var dirty := DirtyCount(file);
    for i := 0 to dirty
      invariant RecordsFit(file, i, mem.Length / PAGE)
      invariant mem[..] == Applied(old(mem[..]), file, i)
    {
      if !RecordsFit(file, i + 1, mem.Length / PAGE) { UnfitStays(file, i + 1, dirty, mem.Length / PAGE); }
      if HEADER_SIZE + (i + 1) * RECORD > |file| { return Err("short read dirty snapshot"); }
      var page := RecordPage(file, i);
      if !(page < mem.Length / PAGE) { return Err("dirty snapshot page index out of bounds"); }
      PageRoom(page, mem.Length);
      Store(mem, page * PAGE, RecordBytes(file, i));
    }
    return Ok(dirty);
  }

  lemma PageRoom(page: nat, size: nat)
    requires page < size / PAGE
    ensures page * PAGE + PAGE <= size
  {
  }

  // ---- The delta restores memory ----

  lemma {:induction false} RecordAt(ram: seq<byte>, pages: seq<nat>, n: nat, k: nat)
    requires k < n <= |pages| && Within(pages, |ram|) && |ram| < U64_SPAN
    ensures var r := Records(ram, pages, n);
      && k * RECORD + RECORD <= |r|
      && r[k * RECORD..k * RECORD + 8] == Le64(pages[k])
      && r[k * RECORD + 8..k * RECORD + 8 + PAGE] == PageAt(ram, pages[k])
  {
    hide Le64, PageAt;
    if k < n - 1 {
      RecordAt(ram, pages, n - 1, k);
      var before := Records(ram, pages, n - 1);
      var all := Records(ram, pages, n);
      assert all[..|before|] == before;
      PrefixSlice(all, before, k * RECORD, 8);
      PrefixSlice(all, before, k * RECORD + 8, PAGE);
    }
  }

  lemma PrefixSlice(s: seq<byte>, before: seq<byte>, at: nat, n: nat)
    requires |before| <= |s| && s[..|before|] == before && at + n <= |before|
    ensures s[at..at + n] == before[at..at + n]
  {
    var t, u := s[at..at + n], before[at..at + n];
    forall i | 0 <= i < n ensures t[i] == u[i] { assert s[..|before|][at + i] == s[at + i]; }
  }

  lemma DeltaHeader(ram: seq<byte>, pages: seq<nat>)
    requires Within(pages, |ram|) && |ram| < U64_SPAN && |pages| < U64_SPAN
    ensures HeaderFits(Delta(ram, pages), |ram| / PAGE) && DirtyCount(Delta(ram, pages)) == |pages|
  {
    hide Le32, Le64, U32At, U64At, Records;
    var d := Delta(ram, pages);
    FieldOfSlice(d, 20, 4);
    FieldOfSlice(d, 24, 4);
    FieldOfSlice(d, 32, 8);
    FieldOfSlice(d, 40, 8);
    assert d[20..24] == Le32(1) && d[24..28] == Le32(PAGE);
    assert d[32..40] == Le64(|ram| / PAGE) && d[40..48] == Le64(|pages|);
  }

  lemma DeltaRecord(ram: seq<byte>, pages: seq<nat>, k: nat)
    requires Within(pages, |ram|) && |ram| < U64_SPAN && k < |pages| < U64_SPAN
    ensures HEADER_SIZE + (k + 1) * RECORD <= |Delta(ram, pages)|
    ensures RecordPage(Delta(ram, pages), k) == pages[k]
    ensures RecordBytes(Delta(ram, pages), k) == PageAt(ram, pages[k])
  {
    hide Le64, U64At, PageAt, Header;
    var d := Delta(ram, pages);
    var records := Records(ram, pages, |pages|);
    RecordAt(ram, pages, |pages|, k);
    SuffixSlice(d, records, k * RECORD, 8);
    SuffixSlice(d, records, k * RECORD + 8, PAGE);
    FieldOfSlice(d, HEADER_SIZE + k * RECORD, 8);
  }

  lemma SuffixSlice(d: seq<byte>, records: seq<byte>, at: nat, n: nat)
    requires |d| == HEADER_SIZE + |records| && d[HEADER_SIZE..] == records && at + n <= |records|
    ensures d[HEADER_SIZE + at..HEADER_SIZE + at + n] == records[at..at + n]
  {
    var t, u := d[HEADER_SIZE + at..HEADER_SIZE + at + n], records[at..at + n];
    forall i | 0 <= i < n ensures t[i] == u[i] { assert d[HEADER_SIZE..][at + i] == d[HEADER_SIZE + at + i]; }
  }

  // The base image with the first n listed pages taken from ram.
  function Patched(base: seq<byte>, ram: seq<byte>, pages: seq<nat>, n: nat): (r: seq<byte>)
    requires |base| == |ram| && n <= |pages| && Within(pages, |ram|)
    ensures |r| == |base|
  {
    if n == 0 then base else Splice(Patched(base, ram, pages, n - 1), pages[n - 1] * PAGE, PageAt(ram, pages[n - 1]))
  }

  lemma {:induction false} DeltaApplies(base: seq<byte>, ram: seq<byte>, pages: seq<nat>, n: nat)
    requires |base| == |ram| < U64_SPAN && n <= |pages| < U64_SPAN && Within(pages, |ram|)
    ensures RecordsFit(Delta(ram, pages), n, |ram| / PAGE)
    ensures Applied(base, Delta(ram, pages), n) == Patched(base, ram, pages, n)
  {
    hide Delta, RecordPage, RecordBytes, PageAt;
    if n > 0 {
      DeltaApplies(base, ram, pages, n - 1);
      DeltaRecord(ram, pages, n - 1);
      PageIndex(pages[n - 1], |ram|);
    }
  }

  lemma PageIndex(p: nat, size: nat)
    requires (p + 1) * PAGE <= size
    ensures p < size / PAGE
  {
  }

  lemma {:induction false} PatchedPage(base: seq<byte>, ram: seq<byte>, pages: seq<nat>, n: nat, p: nat)
    requires |base| == |ram| && n <= |pages| && Within(pages, |ram|) && (p + 1) * PAGE <= |ram|
    ensures PageAt(Patched(base, ram, pages, n), p) == if p in pages[..n] then PageAt(ram, p) else PageAt(base, p)
  {
    if n > 0 {
      hide PageAt, Splice, Within;
      var q := pages[n - 1];
      PageWithin(pages, |ram|, n - 1);
      PatchedPage(base, ram, pages, n - 1, p);
      SplicedPage(Patched(base, ram, pages, n - 1), q, PageAt(ram, q), p);
      assert pages[..n] == pages[..n - 1] + [q];
      assert p in pages[..n] <==> p in pages[..n - 1] || p == q;
    }
  }

  lemma PageWithin(pages: seq<nat>, ramSize: nat, i: nat)
    requires Within(pages, ramSize) && i < |pages|
    ensures (pages[i] + 1) * PAGE <= ramSize
  {
  }

  lemma SplicedPage(m: seq<byte>, q: nat, t: seq<byte>, p: nat)
    requires (q + 1) * PAGE <= |m| && (p + 1) * PAGE <= |m| && |t| == PAGE
    ensures PageAt(Splice(m, q * PAGE, t), p) == if p == q then t else PageAt(m, p)
  {
    SpliceAt(m, q * PAGE, t);
    hide Splice;
    var r := Splice(m, q * PAGE, t);
    forall i | 0 <= i < PAGE ensures PageAt(r, p)[i] == if p == q then t[i] else PageAt(m, p)[i] {
      assert PageAt(r, p)[i] == r[p * PAGE + i];
    }
  }

  lemma {:induction false} SamePages(a: seq<byte>, b: seq<byte>, n: nat)
    requires n * PAGE <= |a| && n * PAGE <= |b| && forall p :: 0 <= p < n ==> PageAt(a, p) == PageAt(b, p)
    ensures a[..n * PAGE] == b[..n * PAGE]
  {
    hide PageAt;
    if n > 0 {
      SamePages(a, b, n - 1);
      LastPage(a, n - 1);
      LastPage(b, n - 1);
    }
  }

  lemma LastPage(a: seq<byte>, p: nat)
    requires (p + 1) * PAGE <= |a|
    ensures a[..(p + 1) * PAGE] == a[..p * PAGE] + PageAt(a, p)
  {
  }

  ghost predicate ChangesListed(base: seq<byte>, ram: seq<byte>, pages: seq<nat>)
    requires |base| == |ram|
  {
    forall p :: 0 <= p < |ram| / PAGE && p !in pages ==> SamePage(base, ram, p)
  }

  predicate SamePage(a: seq<byte>, b: seq<byte>, p: nat)
    requires |a| == |b| && p < |a| / PAGE
  {
    PageRoom(p, |a|);
    PageAt(a, p) == PageAt(b, p)
  }

  // For memory of whole pages, the patched base is the memory exactly when every page that differs from
  // the base is listed.
  lemma RestoresIff(base: seq<byte>, ram: seq<byte>, pages: seq<nat>)
    requires |base| == |ram| && |ram| % PAGE == 0 && Within(pages, |ram|)
    ensures Patched(base, ram, pages, |pages|) == ram <==> ChangesListed(base, ram, pages)
  {
    hide Patched, PageAt;
    var r := Patched(base, ram, pages, |pages|);
    if r == ram {
      forall p | 0 <= p < |ram| / PAGE && p !in pages ensures SamePage(base, ram, p) {
        PatchedSame(base, ram, pages, p);
      }
    } else if ChangesListed(base, ram, pages) {
      forall p | 0 <= p < |ram| / PAGE ensures SamePage(r, ram, p) {
        PatchedSame(base, ram, pages, p);
      }
      AllSame(r, ram);
    }
  }

  lemma PatchedSame(base: seq<byte>, ram: seq<byte>, pages: seq<nat>, p: nat)
    requires |base| == |ram| && Within(pages, |ram|) && p < |ram| / PAGE
    ensures SamePage(Patched(base, ram, pages, |pages|), ram, p) <==> p in pages || SamePage(base, ram, p)
  {
    hide Patched, PageAt;
    PageRoom(p, |ram|);
    PatchedPage(base, ram, pages, |pages|, p);
    assert pages[..|pages|] == pages;
  }

  lemma AllSame(a: seq<byte>, b: seq<byte>)
    requires |a| == |b| && |a| % PAGE == 0 && forall p :: 0 <= p < |a| / PAGE ==> SamePage(a, b, p)
    ensures a == b
  {
    hide PageAt;
    var n := |a| / PAGE;
    assert n * PAGE == |a|;
    forall p | 0 <= p < n ensures PageAt(a, p) == PageAt(b, p) { assert SamePage(a, b, p); }
    SamePages(a, b, n);
    assert a[..n * PAGE] == a && b[..n * PAGE] == b;
  }

  // Applying the delta of the dirty list to the base restores memory, if the log marks every page in which
  // memory differs from the base.
  lemma SnapshotRestores(base: seq<byte>, ram: seq<byte>, bitmap: seq<u64>)
    requires |base| == |ram| < U64_SPAN && |ram| % PAGE == 0
    requires forall p :: 0 <= p < |ram| / PAGE && !SamePage(base, ram, p) ==> Dirty(bitmap, p)
    ensures var pages := DirtyPages(bitmap, |bitmap|, |ram| / PAGE);
      && |pages| < U64_SPAN && Within(pages, |ram|)
      && HeaderFits(Delta(ram, pages), |base| / PAGE)
      && RecordsFit(Delta(ram, pages), DirtyCount(Delta(ram, pages)), |base| / PAGE)
      && Applied(base, Delta(ram, pages), DirtyCount(Delta(ram, pages))) == ram
  {
    hide Delta, PageAt, SamePage, Applied, Patched, HeaderFits, DirtyCount, DirtyPages, Dirty;
    var pages := DirtyPages(bitmap, |bitmap|, |ram| / PAGE);
    forall i | 0 <= i < |pages| ensures pages[i] < |ram| / PAGE {
      DirtyPagesHas(bitmap, |bitmap|, |ram| / PAGE, pages[i]);
    }
    DirtyPagesIncreasing(bitmap, |bitmap|, |ram| / PAGE);
    IncreasingLength(pages, |ram| / PAGE);
    PagesWithin(pages, |ram|);
    DeltaHeader(ram, pages);
    DeltaApplies(base, ram, pages, |pages|);
    forall p | 0 <= p < |ram| / PAGE && p !in pages ensures SamePage(base, ram, p) {
      DirtyPagesHas(bitmap, |bitmap|, |ram| / PAGE, p);
      InLog(bitmap, p);
    }
    RestoresIff(base, ram, pages);
  }

  lemma PagesWithin(pages: seq<nat>, size: nat)
    requires forall i :: 0 <= i < |pages| ==> pages[i] < size / PAGE
    ensures Within(pages, size)
  {
    forall i | 0 <= i < |pages| ensures (pages[i] + 1) * PAGE <= size { PageRoom(pages[i], size); }
  }

  lemma {:induction false} IncreasingLength(pages: seq<nat>, limit: nat)
    requires Increasing(pages) && forall i :: 0 <= i < |pages| ==> pages[i] < limit
    ensures |pages| <= limit
  {
    if pages != [] {
      var n := |pages| - 1;
      forall i | 0 <= i < n ensures pages[..n][i] < pages[n] { assert pages[i] < pages[n]; }
      IncreasingLength(pages[..n], pages[n]);
    }
  }
}
