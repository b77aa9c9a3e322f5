// The ELF64 kernel loader (native/whp/elf_loader.cc:88-121, native/kvm/backend.cc:867-900): PT_LOAD segments are
// copied and zero-filled in the order of the program header table, overlapping ones included.
module ElfLoader {
  import opened Bytes

  const EHDR_SIZE: nat := 64
  const PHDR_SIZE: nat := 56

  datatype Segment = Segment(load: bool, offset: u64, paddr: u64, filesz: u64, memsz: u64)

  datatype KernelInfo = KernelInfo(entry: u64, kernelEnd: nat)

  // A program header: type, flags, offset, vaddr, paddr, filesz, memsz, align.
  function SegmentAt(data: seq<byte>, at: nat): Segment
    requires at + PHDR_SIZE <= |data|
  {
    Segment(U32At(data, at) == 1, U64At(data, at + 8), U64At(data, at + 24), U64At(data, at + 32), U64At(data, at + 40))
  }

  function Entry(data: seq<byte>): u64
    requires |data| >= EHDR_SIZE
  {
    U64At(data, 24)
  }

  function TableStart(data: seq<byte>): u64
    requires |data| >= EHDR_SIZE
  {
    U64At(data, 32)
  }

  function TableLength(data: seq<byte>): u16
    requires |data| >= EHDR_SIZE
  {
    U16At(data, 56)
  }

  // The checks on the ELF header, up to the range of the program header table.
  predicate HeaderFits(data: seq<byte>) {
    && |data| >= EHDR_SIZE
    && data[..4] == [0x7F, 0x45, 0x4C, 0x46] && data[4] == 2 && data[5] == 1
    && U16At(data, 18) == 62 && U16At(data, 54) == PHDR_SIZE
    && TableStart(data) + TableLength(data) * PHDR_SIZE <= |data|
  }

  // The first n program headers.
  function Segments(data: seq<byte>, n: nat): (s: seq<Segment>)
    requires HeaderFits(data) && n <= TableLength(data)
    ensures |s| == n
  {
    if n == 0 then [] else Segments(data, n - 1) + [SegmentAt(data, TableStart(data) + (n - 1) * PHDR_SIZE)]
  }

  // The checks on one segment, none of them a sum that can wrap.
  predicate Loadable(s: Segment, fileSize: nat, memSize: nat) {
    s.load ==> s.filesz <= s.memsz && s.offset + s.filesz <= fileSize && s.paddr + s.memsz <= memSize
  }

  predicate AllLoadable(segments: seq<Segment>, fileSize: nat, memSize: nat) {
    segments == [] || (AllLoadable(segments[..|segments| - 1], fileSize, memSize)
                       && Loadable(segments[|segments| - 1], fileSize, memSize))
  }

  // What a segment puts into memory: its bytes of the file, then zeros.
  function Image(data: seq<byte>, s: Segment): (b: seq<byte>)
    requires s.filesz <= s.memsz && s.offset + s.filesz <= |data|
    ensures |b| == s.memsz
  {
    data[s.offset..s.offset + s.filesz] + Zeros(s.memsz - s.filesz)
  }

  // Memory after the segments, in table order.
  function Loaded(m: seq<byte>, data: seq<byte>, segments: seq<Segment>): (r: seq<byte>)
    requires AllLoadable(segments, |data|, |m|)
    ensures |r| == |m|
  {
    if segments == [] then m else
      var s := segments[|segments| - 1];
      var before := Loaded(m, data, segments[..|segments| - 1]);
      if s.load then Splice(before, s.paddr, Image(data, s)) else before
  }

  function EndOf(segments: seq<Segment>): nat {
    if segments == [] then 0 else
      var s := segments[|segments| - 1];
      var end := EndOf(segments[..|segments| - 1]);
      if s.load then Max(end, s.paddr + s.memsz) else end
  }

  // ---- The file format, by the offsets of its fields ----

  // Segment i of the file: type, offset, paddr, filesz and memsz of the program header at phoff + 56 * i. The
  // virtual address at offset 16 of the header plays no part.
  lemma {:induction false} SegmentFields(data: seq<byte>, n: nat, i: nat)
    requires HeaderFits(data) && i < n <= TableLength(data)
    ensures U64At(data, 32) + 56 * i + 56 <= |data|
    ensures var at, s := U64At(data, 32) + 56 * i, Segments(data, n)[i];
            && (s.load <==> U32At(data, at) == 1) && s.offset == U64At(data, at + 8)
            && s.paddr == U64At(data, at + 24) && s.filesz == U64At(data, at + 32) && s.memsz == U64At(data, at + 40)
  {
    hide U16At, U32At, U64At;
    if i < n - 1 { SegmentFields(data, n - 1, i); }
  }

  // What a program header must satisfy when it is to be loaded.
  predicate HeaderLoads(data: seq<byte>, at: nat, memSize: nat)
    requires at + 56 <= |data|
  {
    U32At(data, at) == 1 ==>
      && U64At(data, at + 32) <= U64At(data, at + 40)
      && U64At(data, at + 8) + U64At(data, at + 32) <= |data|
      && U64At(data, at + 24) + U64At(data, at + 40) <= memSize
  }

  lemma {:induction false} AllLoadableIff(segments: seq<Segment>, fileSize: nat, memSize: nat)
    ensures AllLoadable(segments, fileSize, memSize) <==>
            forall k :: 0 <= k < |segments| ==> Loadable(segments[k], fileSize, memSize)
  {
    hide Loadable;
    if segments != [] { AllLoadableIff(segments[..|segments| - 1], fileSize, memSize); }
  }

  // Which files load: the magic, 64 bits, little-endian, x86-64, program headers of 56 bytes inside the file, an
  // entry point, and every PT_LOAD header inside the file and inside memory.
  lemma LoadsIff(data: seq<byte>, memSize: nat)
    ensures HeaderFits(data) && Entry(data) != 0 && AllLoadable(Segments(data, TableLength(data)), |data|, memSize) <==>
            && |data| >= 64 && data[0] == 0x7F && data[1] == 0x45 && data[2] == 0x4C && data[3] == 0x46
            && data[4] == 2 && data[5] == 1 && U16At(data, 18) == 62 && U16At(data, 54) == 56
            && U64At(data, 32) + U16At(data, 56) * 56 <= |data| && U64At(data, 24) != 0
            && forall i :: 0 <= i < U16At(data, 56) ==> HeaderLoads(data, U64At(data, 32) + 56 * i, memSize)
  {
    hide U16At, U32At, U64At, AllLoadable, Segments, HeaderFits, HeaderLoads, Loadable;
    HeaderIff(data);
    if HeaderFits(data) {
      var n, start := U16At(data, 56), U64At(data, 32);
      var segments := Segments(data, n);
      AllLoadableIff(segments, |data|, memSize);
      forall i | 0 <= i < n
        ensures start + 56 * i + 56 <= |data|
        ensures Loadable(segments[i], |data|, memSize) == HeaderLoads(data, start + 56 * i, memSize)
      {
        SegmentLoads(data, n, i, memSize);
      }
    }
  }

  lemma HeaderIff(data: seq<byte>)
    ensures HeaderFits(data) <==>
            && |data| >= 64 && data[0] == 0x7F && data[1] == 0x45 && data[2] == 0x4C && data[3] == 0x46
            && data[4] == 2 && data[5] == 1 && U16At(data, 18) == 62 && U16At(data, 54) == 56
            && U64At(data, 32) + U16At(data, 56) * 56 <= |data|
  {
    hide U16At, U64At;
    if |data| >= 64 && data[0] == 0x7F && data[1] == 0x45 && data[2] == 0x4C && data[3] == 0x46 {
      assert data[..4] == [0x7F, 0x45, 0x4C, 0x46];
    }
  }

  lemma SegmentLoads(data: seq<byte>, n: nat, i: nat, memSize: nat)
    requires HeaderFits(data) && i < n <= TableLength(data)
    ensures U64At(data, 32) + 56 * i + 56 <= |data|
    ensures Loadable(Segments(data, n)[i], |data|, memSize) == HeaderLoads(data, U64At(data, 32) + 56 * i, memSize)
  {
    hide U16At, U32At, U64At, Segments, HeaderFits;
    SegmentFields(data, n, i);
  }

  // ---- What the result means ----

  predicate Covers(s: Segment, a: nat) { s.load && s.paddr <= a < s.paddr + s.memsz }

  // The byte that a segment prescribes for an address it covers.
  function ByteOf(data: seq<byte>, s: Segment, a: nat): byte
    requires s.filesz <= s.memsz && s.offset + s.filesz <= |data| && Covers(s, a)
  {
    if a < s.paddr + s.filesz then data[s.offset + (a - s.paddr)] else 0
  }

  lemma {:induction false} LoadableAt(segments: seq<Segment>, fileSize: nat, memSize: nat, k: nat)
    requires AllLoadable(segments, fileSize, memSize) && k < |segments|
    ensures Loadable(segments[k], fileSize, memSize)
  {
    if k < |segments| - 1 { LoadableAt(segments[..|segments| - 1], fileSize, memSize, k); }
  }

  lemma LoadedAt(m: seq<byte>, data: seq<byte>, segments: seq<Segment>, a: nat)
    requires AllLoadable(segments, |data|, |m|) && a < |m| && segments != []
    ensures var n := |segments| - 1;
      Loaded(m, data, segments)[a] == if Covers(segments[n], a) then ByteOf(data, segments[n], a)
                                      else Loaded(m, data, segments[..n])[a]
  {
    hide Image, Splice, ByteOf;
    var s := segments[|segments| - 1];
    var before := Loaded(m, data, segments[..|segments| - 1]);
    if s.load { PlacedAt(before, data, s, a); }
  }

  lemma PlacedAt(before: seq<byte>, data: seq<byte>, s: Segment, a: nat)
    requires s.load && Loadable(s, |data|, |before|) && a < |before|
    ensures Splice(before, s.paddr, Image(data, s))[a] == if Covers(s, a) then ByteOf(data, s, a) else before[a]
  {
    SpliceAt(before, s.paddr, Image(data, s));
    hide Splice;
    if Covers(s, a) { ImageAt(data, s, a); }
  }

  lemma ImageAt(data: seq<byte>, s: Segment, a: nat)
    requires s.filesz <= s.memsz && s.offset + s.filesz <= |data| && Covers(s, a)
    ensures Image(data, s)[a - s.paddr] == ByteOf(data, s, a)
  {
  }

  // Each byte of memory comes from the last PT_LOAD segment that covers it.
  lemma LastWins(m: seq<byte>, data: seq<byte>, segments: seq<Segment>, a: nat, k: nat)
    requires AllLoadable(segments, |data|, |m|) && a < |m|
    requires k < |segments| && Covers(segments[k], a)
    requires forall j :: k < j < |segments| ==> !Covers(segments[j], a)
    ensures Loadable(segments[k], |data|, |m|)
    ensures var s := segments[k];
            Loaded(m, data, segments)[a] == if a < s.paddr + s.filesz then data[s.offset + (a - s.paddr)] else 0
  {
    hide Loaded, AllLoadable;
    LastByte(m, data, segments, a, k);
  }

  lemma {:induction false} LastByte(m: seq<byte>, data: seq<byte>, segments: seq<Segment>, a: nat, k: nat)
    requires AllLoadable(segments, |data|, |m|) && a < |m|
    requires k < |segments| && Covers(segments[k], a)
    requires forall j :: k < j < |segments| ==> !Covers(segments[j], a)
    ensures Loadable(segments[k], |data|, |m|) && Loaded(m, data, segments)[a] == ByteOf(data, segments[k], a)
  {
    LoadableAt(segments, |data|, |m|, k);
    LoadedAt(m, data, segments, a);
    hide Loaded, ByteOf, Covers, Loadable;
    var n := |segments| - 1;
    if k < n {
      assert segments[..n][k] == segments[k];
      LastByte(m, data, segments[..n], a, k);
    }
  }

  // A byte that no PT_LOAD segment covers keeps its value.
  lemma {:induction false} ElseUnchanged(m: seq<byte>, data: seq<byte>, segments: seq<Segment>, a: nat)
    requires AllLoadable(segments, |data|, |m|) && a < |m|
    requires forall j :: 0 <= j < |segments| ==> !Covers(segments[j], a)
    ensures Loaded(m, data, segments)[a] == m[a]
  {
    if segments != [] {
      LoadedAt(m, data, segments, a);
      ElseUnchanged(m, data, segments[..|segments| - 1], a);
    }
  }

  // kernel_end is the maximum of paddr + memsz over the PT_LOAD segments, and 0 when there is none.
  lemma {:induction false} EndIsMaximum(segments: seq<Segment>)
    ensures forall k :: 0 <= k < |segments| && segments[k].load ==>
              segments[k].paddr + segments[k].memsz <= EndOf(segments)
    ensures EndOf(segments) == 0 ||
            exists k :: 0 <= k < |segments| && segments[k].load
                && segments[k].paddr + segments[k].memsz == EndOf(segments)
  {
    if segments != [] {
      var n := |segments| - 1;
      var rest := segments[..n];
      EndIsMaximum(rest);
      assert segments[n] in segments;
      if EndOf(segments) == EndOf(rest) && EndOf(rest) != 0 {
        var k :| 0 <= k < n && rest[k].load && rest[k].paddr + rest[k].memsz == EndOf(rest);
        assert segments[k] == rest[k];
      }
      forall k | 0 <= k < |segments| && segments[k].load ensures segments[k].paddr
          + segments[k].memsz <= EndOf(segments) {
        if k < n { assert segments[k] == rest[k]; }
      }
    }
  }

  // ---- The loader ----

  method CheckHeader(data: seq<byte>) returns (r: Result<nat>)
    requires |data| < U64_SPAN
    ensures r.Ok? <==> HeaderFits(data)
  {
    if |data| < EHDR_SIZE { return Err("kernel is too small"); }
    if data[..4] != [0x7F, 0x45, 0x4C, 0x46] { return Err("kernel must be an ELF vmlinux"); }
    if data[4] != 2 { return Err("kernel must be ELF64"); }
    if data[5] != 1 { return Err("kernel must be little-endian ELF"); }
    if U16At(data, 18) != 62 { return Err("kernel must be x86_64 ELF"); }
    if U16At(data, 54) != PHDR_SIZE { return Err("kernel ELF program header size is unsupported"); }
    var size := CheckedMul(TableLength(data), PHDR_SIZE);
    if !InRange(|data|, TableStart(data), size.value) { return Err("kernel program header table"); }
    return Ok(size.value);
  }

  method CheckSegment(s: Segment, fileSize: nat, memSize: nat) returns (r: Result<u64>)
    requires s.load && memSize < U64_SPAN
    ensures r.Ok? <==> Loadable(s, fileSize, memSize)
    ensures r.Ok? ==> r.value == s.paddr + s.memsz
  {
    if !(s.filesz <= s.memsz) { return Err("kernel segment file size exceeds memory size"); }
    if !InRange(fileSize, s.offset, s.filesz) { return Err("kernel segment file range"); }
    if !InRange(memSize, s.paddr, s.memsz) { return Err("kernel segment guest range"); }
    r := CheckedAdd(s.paddr, s.memsz);
  }

  // The copy and the zero fill; the sum that starts the fill does not wrap.
  method PlaceSegment(mem: array<byte>, data: seq<byte>, s: Segment)
    requires s.load && mem.Length < U64_SPAN && Loadable(s, |data|, mem.Length)
    modifies mem
    ensures mem[..] == Splice(old(mem[..]), s.paddr, Image(data, s))
  {
    hide Splice;
    ghost var before := mem[..];
    Store(mem, s.paddr, data[s.offset..s.offset + s.filesz]);
    SpliceNothing(mem[..], s.paddr + s.filesz, Zeros(s.memsz - s.filesz));
    SpliceTwice(before, s.paddr, data[s.offset..s.offset + s.filesz], Zeros(s.memsz - s.filesz));
    if s.memsz > s.filesz {
      var zeroStart := CheckedAdd(s.paddr, s.filesz);
      Store(mem, zeroStart.value, Zeros(s.memsz - s.filesz));
    }
  }

  lemma SpliceNothing(m: seq<byte>, at: nat, t: seq<byte>)
    requires at + |t| <= |m|
    ensures t == [] ==> Splice(m, at, t) == m
  {
  }

  lemma SpliceTwice(m: seq<byte>, at: nat, t: seq<byte>, u: seq<byte>)
    requires at + |t| + |u| <= |m|
    ensures Splice(Splice(m, at, t), at + |t|, u) == Splice(m, at, t + u)
  {
  }

  lemma SegmentsNext(data: seq<byte>, i: nat)
    requires HeaderFits(data) && i < TableLength(data)
    ensures TableStart(data) + i * PHDR_SIZE + PHDR_SIZE <= |data|
    ensures var t := Segments(data, i + 1);
            t[..i] == Segments(data, i) && t[i] == SegmentAt(data, TableStart(data) + i * PHDR_SIZE)
  {
  }

  lemma {:induction false} UnloadableStays(data: seq<byte>, i: nat, n: nat, memSize: nat)
    requires HeaderFits(data) && i <= n <= TableLength(data) && !AllLoadable(Segments(data, i), |data|, memSize)
    ensures !AllLoadable(Segments(data, n), |data|, memSize)
  {
    hide HeaderFits, SegmentAt, Loadable;
    if i < n {
      SegmentsNext(data, n - 1);
      UnloadableStays(data, i, n - 1, memSize);
    }
  }

  // On success memory is what the segments prescribe; it fails exactly when a check does.
  method LoadElfKernel(mem: array<byte>, data: seq<byte>) returns (r: Result<KernelInfo>)
    requires mem.Length < U64_SPAN && |data| < U64_SPAN
    modifies mem
    ensures r.Ok? <==> HeaderFits(data) && Entry(data) != 0
                       && AllLoadable(Segments(data, TableLength(data)), |data|, mem.Length)
    ensures r.Ok? ==> mem[..] == Loaded(old(mem[..]), data, Segments(data, TableLength(data)))
    ensures r.Ok? ==> r.value.entry == U64At(data, 24) && r.value.kernelEnd == EndOf(Segments(data, TableLength(data)))
  {
    hide HeaderFits, Entry, TableStart, TableLength, SegmentAt, Image;
    var _ :- CheckHeader(data);
    HeaderRoom(data);
    var kernelEnd: u64 := 0;
    for i := 0 to TableLength(data)
      invariant AllLoadable(Segments(data, i), |data|, mem.Length)
      invariant mem[..] == Loaded(old(mem[..]), data, Segments(data, i))
      invariant kernelEnd == EndOf(Segments(data, i))
    {
      SegmentsNext(data, i);
      if !AllLoadable(Segments(data, i + 1), |data|, mem.Length) {
        UnloadableStays(data, i + 1, TableLength(data), mem.Length);
      }
      var phOff := CheckedAdd(TableStart(data), i * PHDR_SIZE);
      var ph := SegmentAt(data, phOff.value);
      if ph.load {
        var end :- CheckSegment(ph, |data|, mem.Length);
        PlaceSegment(mem, data, ph);
        kernelEnd := Max(kernelEnd, end);
      }
    }
    EntryField(data);
    if Entry(data) == 0 { return Err("kernel ELF entrypoint is zero"); }
    return Ok(KernelInfo(Entry(data), kernelEnd));
  }

  lemma EntryField(data: seq<byte>)
    requires |data| >= EHDR_SIZE
    ensures Entry(data) == U64At(data, 24)
  {
  }

  lemma HeaderRoom(data: seq<byte>)
    requires HeaderFits(data)
    ensures |data| >= EHDR_SIZE
  {
  }
}
