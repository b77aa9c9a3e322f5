// The DSDT that the KVM back end builds for its virtio-mmio devices (native/kvm/backend.cc:82-110,
// 1131-1252): the AML it holds reads back as the intended tree, and the table's bytes sum to zero.
module Dsdt {
  import opened Bytes
  import opened Aml

  const IRQ_BASE: nat := 5
  const MAX_PINS: nat := 24
  const MMIO_BASE: nat := 0xD000_0000
  const STRIDE: nat := 0x1000

  // _HID, _UID, _CCA, _CRS, \_SB_ and LNRO0005
  const HID: seq<byte> := [0x5F, 0x48, 0x49, 0x44]
  const UID: seq<byte> := [0x5F, 0x55, 0x49, 0x44]
  const CCA: seq<byte> := [0x5F, 0x43, 0x43, 0x41]
  const CRS: seq<byte> := [0x5F, 0x43, 0x52, 0x53]
  const SB: seq<byte> := [0x5C, 0x5F, 0x53, 0x42, 0x5F]
  const LNRO0005: seq<byte> := [0x4C, 0x4E, 0x52, 0x4F, 0x30, 0x30, 0x30, 0x35]

  // VirtioMmioDeviceName: V followed by three digits.
  function DeviceName(index: nat): (name: seq<byte>)
    requires index <= 999
    ensures |name| == 4 && DOT !in name && name[0] == 0x56
  {
    [0x56] + Decimal(index, 3)
  }

  // The last digits of v, as %0Nu prints them.
  function Decimal(v: nat, digits: nat): (d: seq<byte>)
    ensures |d| == digits && forall i :: 0 <= i < digits ==> 0x30 <= d[i] <= 0x39
  {
    if digits == 0 then [] else Decimal(v / 10, digits - 1) + [0x30 + v % 10]
  }

  // ResMemory32Fixed and ResInterrupt with the flags that every device uses, then the end tag.
  function Resources(base: u32, irq: u32): (b: Blob)
    ensures |b| == 23
  {
    [0x86] + Le16(9) + [1] + Le32(base) + Le32(STRIDE) + [0x89] + Le16(6) + [3, 1] + Le32(irq) + [0x79, 0x00]
  }

  function VirtioTerm(index: nat): Term
    requires index <= 999
  {
    Device(DeviceName(index), [
      NameDecl(HID, Str(LNRO0005)), NameDecl(UID, Int(index)), NameDecl(CCA, Int(1)),
      NameDecl(CRS, Buf(Resources(MMIO_BASE + index * STRIDE, IRQ_BASE + index)))])
  }

  function VirtioTerms(n: nat): (ts: seq<Term>)
    requires n <= 1000
    ensures |ts| == n
  {
    seq(n, i requires 0 <= i < n => VirtioTerm(i))
  }

  function DsdtTree(n: nat): Term
    requires n <= 1000
  {
    Scope(SB, VirtioTerms(n))
  }

  lemma PlainPath(path: seq<byte>)
    requires |path| == 4 && DOT !in path && path[0] != ROOT && path[0] != MULTI
    ensures NameOf(path) == Some(Name(false, [path])) && ReadablePath(path) && |PathBytes(path)| == 4
  {
    assert path[0..4] == path;
    CutConcat([path], []);
  }

  lemma RootPath(path: seq<byte>)
    requires |path| == 5 && DOT !in path && path[0] == ROOT && path[1] != MULTI
    ensures NameOf(path) == Some(Name(true, [path[1..]])) && ReadablePath(path) && |PathBytes(path)| == 5
  {
    assert path[1..][0..4] == path[1..];
    CutConcat([path[1..]], []);
  }

  lemma {:induction false} AllSmall(ts: seq<Term>, k: nat)
    requires forall i :: 0 <= i < |ts| ==> Readable(ts[i]) && |TermBytes(ts[i])| <= k
    ensures AllReadable(ts) && |TermsBytes(ts)| <= k * |ts|
  {
    hide Readable, TermBytes;
    if ts != [] {
      AllSmall(ts[1..], k);
      assert k * |ts| == k + k * |ts[1..]|;
    }
  }

  lemma DeclReadable(path: seq<byte>, value: Value)
    requires |path| == 4 && DOT !in path && path[0] != ROOT && path[0] != MULTI
    requires Sound(value) && |ValueBytes(value)| <= 45
    ensures Readable(NameDecl(path, value)) && |TermBytes(NameDecl(path, value))| <= 50
  {
    hide PathBytes, ValueBytes, Sound, ReadablePath;
    PlainPath(path);
  }

  lemma ResourcesValue(base: u32, irq: u32)
    ensures Sound(Buf(Resources(base, irq))) && |ValueBytes(Buf(Resources(base, irq)))| <= 45
  {
    hide Le16, Le32, Resources;
  }

  lemma VirtioReadable(index: nat)
    requires index <= 999
    ensures Readable(VirtioTerm(index)) && |TermBytes(VirtioTerm(index))| <= 250
  {
    hide Readable, TermBytes, TermsBytes, PathBytes, Sound, Resources, ReadablePath, AllReadable;
    var children := VirtioTerm(index).children;
    ResourcesValue(MMIO_BASE + index * STRIDE, IRQ_BASE + index);
    DeclValues(index);
    DeclReadable(HID, Str(LNRO0005));
    DeclReadable(UID, Int(index));
    DeclReadable(CCA, Int(1));
    DeclReadable(CRS, Buf(Resources(MMIO_BASE + index * STRIDE, IRQ_BASE + index)));
    AllSmall(children, 50);
    PlainPath(DeviceName(index));
    PackedReadable(DeviceName(index), children);
  }

  lemma DeclValues(index: nat)
    requires index <= 999
    ensures Sound(Str(LNRO0005)) && |ValueBytes(Str(LNRO0005))| <= 45
    ensures Sound(Int(index)) && |ValueBytes(Int(index))| <= 45 && Sound(Int(1)) && |ValueBytes(Int(1))| <= 45
  {
  }

  lemma PackedReadable(path: seq<byte>, children: seq<Term>)
    requires ReadablePath(path) && |PathBytes(path)| <= 5 && AllReadable(children) && |TermsBytes(children)| <= 10000
    ensures Readable(Device(path, children)) && |TermBytes(Device(path, children))| <= |TermsBytes(children)| + 11
    ensures Readable(Scope(path, children)) && |TermBytes(Scope(path, children))| <= |TermsBytes(children)| + 11
  {
    hide ReadablePath, AllReadable, PathBytes, TermsBytes, PkgBytes;
  }

  // For every permitted number of devices, the bytes of the DSDT body read back as the intended tree.
  lemma DsdtReads(n: nat)
    requires n <= 19
    ensures DecodeTerm(TermBytes(DsdtTree(n))) == Some((DsdtTree(n), |TermBytes(DsdtTree(n))|))
  {
    hide Readable, TermBytes, TermsBytes, PathBytes, DecodeTerm, ReadablePath, VirtioTerm, AllReadable;
    forall i | 0 <= i < n ensures Readable(VirtioTerms(n)[i]) && |TermBytes(VirtioTerms(n)[i])| <= 250 {
      VirtioReadable(i);
    }
    AllSmall(VirtioTerms(n), 250);
    RootPath(SB);
    PackedReadable(SB, VirtioTerms(n));
    TermRoundTrip(DsdtTree(n), []);
    assert TermBytes(DsdtTree(n)) + [] == TermBytes(DsdtTree(n));
  }

  // ---- What the guest reads ----

  // The resource descriptors of ACPI 6.5, section 6.4, that a template may hold here: 32-bit fixed memory and one
  // extended interrupt.
  datatype Resource = Memory(writable: bool, base: u32, length: u32) | Interrupt(flags: byte, number: u32)

  // The descriptors of a template, up to the end tag that must close it.
  function DecodeResources(b: seq<byte>): Option<seq<Resource>> {
    if b == [0x79, 0x00] then Some([])
    else if |b| >= 12 && b[0] == 0x86 && b[1] == 9 && b[2] == 0 then
      Before(Memory(b[3] % 2 == 1, U32At(b, 4), U32At(b, 8)), DecodeResources(b[12..]))
    else if |b| >= 9 && b[0] == 0x89 && b[1] == 6 && b[2] == 0 && b[4] == 1 then
      Before(Interrupt(b[3], U32At(b, 5)), DecodeResources(b[9..]))
    else None
  }

  function Before(r: Resource, rest: Option<seq<Resource>>): Option<seq<Resource>> {
    if rest.Some? then Some([r] + rest.value) else None
  }

  // A template reads back as the memory range and the interrupt: a consumed, edge-triggered, active-high,
  // exclusive one.
  lemma ResourcesRead(base: u32, irq: u32)
    ensures DecodeResources(Resources(base, irq)) == Some([Memory(true, base, 0x1000), Interrupt(3, irq)])
  {
    hide Le32, U32At;
    var b := Resources(base, irq);
    var c := [0x89] + Le16(6) + [3, 1] + Le32(irq) + [0x79, 0x00];
    var d := [0x86] + Le16(9) + [1] + Le32(base) + Le32(STRIDE);
    assert b == d + c && b[12..] == c && Le16(9) == [9, 0];
    FieldOfSlice(b, 4, 4);
    FieldOfSlice(b, 8, 4);
    assert b[4..8] == Le32(base) && b[8..12] == Le32(STRIDE);
    InterruptRead(irq);
    assert [Memory(true, base, 0x1000)] + [Interrupt(3, irq)] == [Memory(true, base, 0x1000), Interrupt(3, irq)];
  }

  lemma InterruptRead(irq: u32)
    ensures DecodeResources([0x89] + Le16(6) + [3, 1] + Le32(irq) + [0x79, 0x00]) == Some([Interrupt(3, irq)])
  {
    hide Le32, U32At;
    var c := [0x89] + Le16(6) + [3, 1] + Le32(irq) + [0x79, 0x00];
    FieldOfSlice(c, 5, 4);
    assert c[5..9] == Le32(irq) && c[9..] == [0x79, 0x00] && Le16(6) == [6, 0];
    assert DecodeResources([0x79, 0x00]) == Some([]);
    assert [Interrupt(3, irq)] + [] == [Interrupt(3, irq)];
  }

  predicate Spells(path: seq<byte>, s: string) {
    |path| == |s| && forall i :: 0 <= i < |s| ==> path[i] as int == s[i] as int
  }

  // Virtio device k: its name, its identifiers, one page of registers and its interrupt.
  predicate DeviceView(t: Term, k: nat) {
    && t.Device? && Named(t.path, k) && |t.children| == 4
    && Declares(t.children[0], "_HID") && t.children[0].value.Str? && Spells(t.children[0].value.text, "LNRO0005")
    && Declares(t.children[1], "_UID") && t.children[1].value == Int(k)
    && Declares(t.children[2], "_CCA") && t.children[2].value == Int(1)
    && Declares(t.children[3], "_CRS") && t.children[3].value.Buf?
    && DecodeResources(t.children[3].value.data)
       == Some([Memory(true, 0xD000_0000 + k * 0x1000, 0x1000), Interrupt(3, 5 + k)])
  }

  predicate Declares(t: Term, name: string) { t.NameDecl? && Spells(t.path, name) }

  // The letter V and the number in three decimal digits.
  predicate Named(path: seq<byte>, k: nat) {
    && |path| == 4 && path[0] == 0x56 && (forall i :: 1 <= i < 4 ==> 0x30 <= path[i] <= 0x39)
    && (path[1] as int - 0x30) * 100 + (path[2] as int - 0x30) * 10 + (path[3] as int - 0x30) == k
  }

  predicate DsdtView(t: Term, n: nat) {
    && t.Scope? && Spells(t.path, "\\_SB_") && |t.children| == n
    && forall k :: 0 <= k < n ==> DeviceView(t.children[k], k)
  }

  lemma NameSeen(index: nat)
    requires index <= 999
    ensures Named(DeviceName(index), index)
  {
    var d := Decimal(index, 3);
    assert d == Decimal(index / 10, 2) + [0x30 + index % 10];
    assert Decimal(index / 10, 2) == Decimal(index / 10 / 10, 1) + [0x30 + index / 10 % 10];
    assert Decimal(index / 10 / 10, 1) == Decimal(index / 10 / 10 / 10, 0) + [0x30 + index / 10 / 10 % 10];
  }

  lemma DeviceSeen(index: nat)
    requires index <= 999
    ensures DeviceView(VirtioTerm(index), index)
  {
    hide DecodeResources, Resources, DeviceName, Named;
    NameSeen(index);
    ResourcesRead(MMIO_BASE + index * STRIDE, IRQ_BASE + index);
  }

  // For every permitted number of devices the guest reads that many, each with its own registers and interrupt.
  lemma GuestReads(n: nat)
    requires n <= 19
    ensures var r := DecodeTerm(TermBytes(DsdtTree(n)));
            r.Some? && r.value.1 == |TermBytes(DsdtTree(n))| && DsdtView(r.value.0, n)
  {
    hide TermBytes, DecodeTerm, VirtioTerm, DeviceView;
    DsdtReads(n);
    forall k | 0 <= k < n ensures DeviceView(VirtioTerms(n)[k], k) { DeviceSeen(k); }
  }

  // ---- The builders ----

  method AppendName(path: seq<byte>, value: Value) returns (r: Result<seq<byte>>)
    ensures r.Ok? <==> NameOf(path).Some?
    ensures r.Ok? ==> r.value == TermBytes(NameDecl(path, value))
  {
    var name :- EncodePath(path);
    return Ok([0x08] + name + ValueBytes(value));
  }

  // The children are the encodings of the terms ts.
  method AppendChildren(path: seq<byte>, children: seq<seq<byte>>, ghost ts: seq<Term>) returns (r: Result<seq<byte>>)
    requires |children| == |ts| && forall i :: 0 <= i < |ts| ==> children[i] == TermBytes(ts[i])
    ensures r.Ok? <==> NameOf(path).Some?
    ensures r.Ok? ==> r.value == PathBytes(path) + TermsBytes(ts)
  {
    hide NameOf, NameBytes, TermBytes;
    var payload :- EncodePath(path);
    ghost var head := payload;
    for i := 0 to |children|
      invariant payload + TermsBytes(ts[i..]) == head + TermsBytes(ts)
    {
      assert ts[i..][1..] == ts[i + 1..];
      payload := payload + children[i];
    }
    assert ts[|ts|..] == [];
    return Ok(payload);
  }

  method AppendDevice(path: seq<byte>, children: seq<seq<byte>>, ghost ts: seq<Term>) returns (r: Result<seq<byte>>)
    requires |children| == |ts| && forall i :: 0 <= i < |ts| ==> children[i] == TermBytes(ts[i])
    ensures r.Ok? <==> NameOf(path).Some?
    ensures r.Ok? ==> r.value == TermBytes(Device(path, ts))
  {
    hide PathBytes, TermsBytes, NameOf, PkgBytes;
    var payload :- AppendChildren(path, children, ts);
    return Ok([0x5B, 0x82] + PkgBytes(|payload|) + payload);
  }

  method AppendScope(path: seq<byte>, children: seq<seq<byte>>, ghost ts: seq<Term>) returns (r: Result<seq<byte>>)
    requires |children| == |ts| && forall i :: 0 <= i < |ts| ==> children[i] == TermBytes(ts[i])
    ensures r.Ok? <==> NameOf(path).Some?
    ensures r.Ok? ==> r.value == TermBytes(Scope(path, ts))
  {
    hide PathBytes, TermsBytes, NameOf, PkgBytes;
    var payload :- AppendChildren(path, children, ts);
    return Ok([0x10] + PkgBytes(|payload|) + payload);
  }

  method BuildVirtioMmioDevice(index: nat) returns (r: Result<seq<byte>>)
    requires index < MAX_PINS
    ensures r == Ok(TermBytes(VirtioTerm(index)))
  {
    hide NameOf, TermBytes;
    PlainPath(HID);
    PlainPath(UID);
    PlainPath(CCA);
    PlainPath(CRS);
    PlainPath(DeviceName(index));
    var hid := AppendName(HID, Str(LNRO0005));
    var uid := AppendName(UID, Int(index));
    var cca := AppendName(CCA, Int(1));
    var crs := AppendName(CRS, Buf(Resources(MMIO_BASE + index * STRIDE, IRQ_BASE + index)));
    r := AppendDevice(DeviceName(index), [hid.value, uid.value, cca.value, crs.value], VirtioTerm(index).children);
  }

  // BuildDsdtBody: the count is a 32-bit sum, and every device needs an IOAPIC pin.
  method BuildDsdtBody(network: bool, disks: u32) returns (r: Result<seq<byte>>)
    ensures r.Ok? <==> 1 <= disks + (if network then 1 else 0) <= 19
    ensures r.Ok? ==>
            var read := DecodeTerm(r.value);
            read.Some? && read.value.1 == |r.value| && DsdtView(read.value.0, disks + if network then 1 else 0)
  {
    hide TermBytes, DsdtTree, DecodeTerm, DsdtView;
    var count := (disks + if network then 1 else 0) % U32_SPAN;
    if count == 0 { return Err("at least one virtio-mmio device is required"); }
    if !(IRQ_BASE + count - 1 < MAX_PINS) { return Err("too many virtio-mmio devices"); }
    r := BuildScope(network, disks);
    GuestReads(count);
  }

  method BuildScope(network: bool, disks: nat) returns (r: Result<seq<byte>>)
    requires disks < MAX_PINS
    ensures r == Ok(TermBytes(DsdtTree(disks + if network then 1 else 0)))
  {
    hide TermBytes, VirtioTerm, NameOf, ReadablePath;
    ghost var n := disks + if network then 1 else 0;
    ghost var want := seq(n, i requires 0 <= i < n => TermBytes(VirtioTerm(i)));
    var children := BuildDevices(disks, want);
    if network {
      var device := BuildVirtioMmioDevice(disks);
      children := children + [device.value];
    }
    assert children == want;
    RootPath(SB);
    r := AppendScope(SB, children, VirtioTerms(n));
  }

  ghost predicate Encodes(bytes: seq<byte>, index: nat) { index <= 999 && bytes == TermBytes(VirtioTerm(index)) }

  // The loop over the disks; want holds the encodings of their terms.
  method BuildDevices(disks: nat, ghost want: seq<seq<byte>>) returns (children: seq<seq<byte>>)
    requires disks < MAX_PINS && disks <= |want| && forall i :: 0 <= i < disks ==> Encodes(want[i], i)
    ensures children == want[..disks]
  {
    children := [];
    for index := 0 to disks
      invariant children == want[..index]
    {
      children := AddDevice(children, index, want);
    }
  }

  method AddDevice(children: seq<seq<byte>>, index: nat, ghost want: seq<seq<byte>>) returns (more: seq<seq<byte>>)
    requires index < MAX_PINS && index < |want| && children == want[..index] && Encodes(want[index], index)
    ensures more == want[..index + 1]
  {
    hide TermBytes, VirtioTerm;
    var device := BuildVirtioMmioDevice(index);
    more := children + [device.value];
  }

  // ---- Checksum ----

  function ByteSum(b: seq<byte>): nat {
    if b == [] then 0 else ByteSum(b[..|b| - 1]) + b[|b| - 1]
  }

  lemma {:induction false} SumUpdate(b: seq<byte>, i: nat, v: byte)
    requires i < |b|
    ensures ByteSum(b[i := v]) == ByteSum(b) - b[i] + v
  {
    var n := |b| - 1;
    if i == n {
      assert b[i := v][..n] == b[..n];
    } else {
      assert b[i := v][..n] == b[..n][i := v];
      SumUpdate(b[..n], i, v);
    }
  }

  // The sum is kept in eight bits; carry counts what fell out of them.
  method TableChecksum(table: array<byte>) returns (c: byte)
    ensures exists k: nat :: ByteSum(table[..]) + c == 0x100 * k
  {
    var sum: byte := 0;
    ghost var carry: nat := 0;
    for i := 0 to table.Length
      invariant ByteSum(table[..i]) == sum + 0x100 * carry
    {
      assert table[..i + 1][..i] == table[..i];
      if sum + table[i] < 0x100 {
        sum := sum + table[i];
      } else {
        sum := sum + table[i] - 0x100;
        carry := carry + 1;
      }
    }
    assert table[..table.Length] == table[..];
    c := if sum == 0 then 0 else (0xFF - sum) + 1;
    assert ByteSum(table[..]) + c == 0x100 * if sum == 0 then carry else carry + 1;
  }

  // FinalizeSdt: only the checksum byte changes, and then all bytes sum to zero modulo 256.
  method FinalizeSdt(table: array<byte>)
    requires table.Length >= 36
    modifies table
    ensures table[..] == old(table[..])[9 := table[9]] && exists k: nat :: ByteSum(table[..]) == 0x100 * k
  {
    table[9] := 0;
    ghost var zeroed := table[..];
    var c := TableChecksum(table);
    SumUpdate(zeroed, 9, c);
    table[9] := c;
    assert table[..] == zeroed[9 := c];
  }
}
