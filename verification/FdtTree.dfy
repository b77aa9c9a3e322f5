// The devicetree that the HVF back end intends (native/hvf/backend.cc:345-670), and what a guest reads from it.
module FdtTree {
  import opened Bytes
  import opened FdtFormat

  const VIRTIO_COUNT: nat := 32

  // A C string literal: its characters up to a NUL.
  function C(s: string): Text {
    if s == "" || s[0] as int % 0x100 == 0 then [] else [s[0] as int % 0x100] + C(s[1..])
  }

  // ---- Values ----

  function Cstr(s: seq<byte>): seq<byte> { s + [0] }

  function Cstrs(ss: seq<Text>): seq<byte> {
    if ss == [] then [] else Cstrs(ss[..|ss| - 1]) + Cstr(ss[|ss| - 1])
  }

  function U64Be(v: u64): seq<byte> { U32Be(v / U32_SPAN) + U32Be(Low32(v)) }

  function Reg(base: u64, size: u64): seq<byte> { U64Be(base) + U64Be(size) }

  function Cells(vs: seq<u32>): seq<byte> {
    if vs == [] then [] else Cells(vs[..|vs| - 1]) + U32Be(vs[|vs| - 1])
  }

  function StrProp(name: string, value: string): Prop { Prop(C(name), Cstr(C(value))) }

  function U32Prop(name: string, value: u32): Prop { Prop(C(name), U32Be(value)) }

  function Digit(d: nat): (b: byte)
    requires d < 16
    ensures b != 0
  {
    if d < 10 then 0x30 + d else 0x57 + d
  }

  // printf's %x and %llx
  function Hex(v: nat): Text {
    if v < 16 then [Digit(v)] else Hex(v / 16) + [Digit(v % 16)]
  }

  // ---- The tree ----

  function AliasesNode(): Node { Node(C("aliases"), [StrProp("serial0", "/pl011@9000000")], []) }

  function ChosenNode(cmdline: seq<byte>, kaslr: u64, rng: seq<byte>): Node {
    Node(C("chosen"), [Prop(C("bootargs"), Cstr(cmdline)), StrProp("stdout-path", "/pl011@9000000"),
                       Prop(C("kaslr-seed"), U64Be(kaslr)), Prop(C("rng-seed"), rng)], [])
  }

  function CpuNode(i: u32, cpus: u32): Node {
    Node(C("cpu@") + Hex(i),
         [StrProp("device_type", "cpu"), StrProp("compatible", "arm,arm-v8"), U32Prop("reg", i)]
         + if cpus > 1 then [StrProp("enable-method", "psci")] else [], [])
  }

  function CpuNodes(n: u32, cpus: u32): seq<Node> {
    if n == 0 then [] else CpuNodes(n - 1, cpus) + [CpuNode(n - 1, cpus)]
  }

  function CpusNode(cpus: u32): Node {
    Node(C("cpus"), [U32Prop("#address-cells", 1), U32Prop("#size-cells", 0)], CpuNodes(cpus, cpus))
  }

  function PsciNode(): Node {
    Node(C("psci"), [Prop(C("compatible"), Cstrs([C("arm,psci-1.0"), C("arm,psci-0.2"), C("arm,psci")])),
                     StrProp("method", "hvc")], [])
  }

  function MemoryNode(base: u64, size: u64): Node {
    Node(C("memory@") + Hex(base), [StrProp("device_type", "memory"), Prop(C("reg"), Reg(base, size))], [])
  }

  // The redistributor size is a 32-bit product.
  function IntcNode(cpus: u32): Node {
    Node(C("intc@8000000"), [
      U32Prop("phandle", 1), StrProp("compatible", "arm,gic-v3"), U32Prop("#address-cells", 2),
      U32Prop("#size-cells", 2), U32Prop("#interrupt-cells", 3), Prop(C("interrupt-controller"), []),
      Prop(C("ranges"), []),
      Prop(C("reg"), Cells([0, 0x0800_0000, 0, 0x1_0000, 0, 0x080A_0000, 0, Low32(0x2_0000 * cpus)]))], [])
  }

  function VirtioNode(base: u64, spi: u32): Node {
    Node(C("virtio_mmio@") + Hex(base), [
      StrProp("compatible", "virtio,mmio"), Prop(C("reg"), Reg(base, 0x200)), U32Prop("interrupt-parent", 1),
      Prop(C("interrupts"), Cells([0, spi, 1])), Prop(C("dma-coherent"), [])], [])
  }

  function VirtioNodes(n: nat): seq<Node>
    requires n <= VIRTIO_COUNT
  {
    if n == 0 then [] else VirtioNodes(n - 1) + [VirtioNode(0x0A00_0000 + (n - 1) * 0x200, 16 + (n - 1))]
  }

  function RootProps(): seq<Prop> {
    [U32Prop("#address-cells", 2), U32Prop("#size-cells", 2), StrProp("compatible", "linux,dummy-virt"),
     StrProp("model", "node-vmm-hvf"), U32Prop("interrupt-parent", 1), Prop(C("dma-coherent"), [])]
  }

  function StrsProp(name: string, values: seq<Text>): Prop { Prop(C(name), Cstrs(values)) }

  function RegProp(base: u64, size: u64): Prop { Prop(C("reg"), Reg(base, size)) }

  function CellsProp(name: string, cells: seq<u32>): Prop { Prop(C(name), Cells(cells)) }

  function Flag(name: string): Prop { Prop(C(name), []) }

  function TimerNode(): Node {
    Node(C("timer"), [
      StrsProp("compatible", [C("arm,armv8-timer"), C("arm,armv7-timer")]),
      CellsProp("interrupts", [1, 13, 4, 1, 14, 4, 1, 11, 4, 1, 10, 4]), Flag("always-on")], [])
  }

  function UartNode(): Node {
    Node(C("pl011@9000000"), [
      StrsProp("compatible", [C("arm,pl011"), C("arm,primecell")]), RegProp(0x0900_0000, 0x1000),
      CellsProp("interrupts", [0, 1, 4]), U32Prop("interrupt-parent", 1),
      StrsProp("clock-names", [C("uartclk"), C("apb_pclk")]), CellsProp("clocks", [2, 3])], [])
  }

  function ClockNode(name: string, phandle: u32): Node {
    Node(C(name), [
      U32Prop("phandle", phandle), StrProp("compatible", "fixed-clock"), U32Prop("#clock-cells", 0),
      U32Prop("clock-frequency", 24000000)], [])
  }

  function RtcNode(): Node {
    Node(C("pl031@9010000"), [
      StrsProp("compatible", [C("arm,pl031"), C("arm,primecell")]), RegProp(0x0901_0000, 0x1000),
      CellsProp("interrupts", [0, 2, 4]), U32Prop("interrupt-parent", 1), U32Prop("clocks", 3),
      StrProp("clock-names", "apb_pclk")], [])
  }

  function GpioNode(): Node {
    Node(C("pl061@9030000"), [
      StrsProp("compatible", [C("arm,pl061"), C("arm,primecell")]), RegProp(0x0903_0000, 0x1000),
      U32Prop("#gpio-cells", 2), Flag("gpio-controller"), CellsProp("interrupts", [0, 7, 4]),
      U32Prop("interrupt-parent", 1), U32Prop("clocks", 3), StrProp("clock-names", "apb_pclk"),
      U32Prop("phandle", 4)], [])
  }

  function KeysNode(): Node {
    Node(C("gpio-keys"), [StrProp("compatible", "gpio-keys")], [
      Node(C("poweroff"), [
        StrProp("label", "GPIO Key Poweroff"), U32Prop("linux,code", 116), CellsProp("gpios", [4, 3, 0])], [])])
  }

  function FwCfgNode(): Node {
    Node(C("fw-cfg@9020000"), [
      StrProp("compatible", "qemu,fw-cfg-mmio"), RegProp(0x0902_0000, 0x18), Flag("dma-coherent")], [])
  }

  function DeviceNodes(): seq<Node> {
    [TimerNode(), UartNode(), ClockNode("uartclk", 2), ClockNode("apb-pclk", 3), RtcNode(), GpioNode(), KeysNode(),
     FwCfgNode()]
  }

  // The interrupt of a pin of a PCI slot, routed round-robin.
  function IntxEntry(slot: nat, pin: nat): seq<u32>
    requires slot < 4 && pin < 4
  {
    [slot * 0x800, 0, 0, pin + 1, 1, 0, 0, 0, 3 + (pin + slot) % 4, 4]
  }

  // The entries before that of a pin of a slot, slot by slot.
  function IntxBefore(slot: nat, pin: nat): seq<u32>
    requires slot <= 4 && pin <= 4 && (slot == 4 ==> pin == 0)
    decreases slot, pin
  {
    if pin > 0 then IntxBefore(slot, pin - 1) + IntxEntry(slot, pin - 1)
    else if slot > 0 then IntxBefore(slot - 1, 4)
    else []
  }

  function PcieProps(): seq<Prop> {
    [StrProp("compatible", "pci-host-ecam-generic"), StrProp("device_type", "pci"), U32Prop("#address-cells", 3),
     U32Prop("#size-cells", 2), U32Prop("linux,pci-domain", 0), CellsProp("bus-range", [0, 15]),
     Flag("dma-coherent"), RegProp(0x3F00_0000, 0x0100_0000),
     CellsProp("ranges", [0x0100_0000, 0, 0, 0, 0x3EFF_0000, 0, 0x1_0000,
                          0x0200_0000, 0, 0x1000_0000, 0, 0x1000_0000, 0, 0x2EFF_0000]),
     U32Prop("#interrupt-cells", 1)]
  }

  function PcieNode(): Node {
    Node(C("pcie@10000000"), PcieProps() + [CellsProp("interrupt-map", IntxBefore(4, 0)),
                                            CellsProp("interrupt-map-mask", [0x1800, 0, 0, 7])], [])
  }

  function ExitNode(): Node {
    Node(C("exit@b000000"), [StrProp("compatible", "node-vmm,exit"), RegProp(0x0B00_0000, 0x1000)], [])
  }

  // What the machine is asked for, and the random seeds.
  datatype Config = Config(
    ramBase: u64, ramSize: u64, cpus: u32, cmdline: seq<byte>, kaslr: u64, rng: seq<byte>)

  function FrontNodes(c: Config): seq<Node> {
    [AliasesNode(), ChosenNode(c.cmdline, c.kaslr, c.rng), CpusNode(c.cpus), PsciNode(),
     MemoryNode(c.ramBase, c.ramSize), IntcNode(c.cpus)]
  }

  function RootNode(c: Config): Node {
    Node([], RootProps(), FrontNodes(c) + DeviceNodes() + VirtioNodes(VIRTIO_COUNT) + [PcieNode(), ExitNode()])
  }

  // ---- What the guest reads ----

  // The literal's characters, for literals without a NUL.
  lemma {:induction false} TextOf(s: string)
    requires forall i :: 0 <= i < |s| ==> 0 < s[i] as int < 0x100
    ensures |C(s)| == |s| && forall i :: 0 <= i < |s| ==> C(s)[i] == s[i] as int
  {
    if s != "" {
      TextOf(s[1..]);
      forall i | 0 <= i < |s| ensures C(s)[i] == s[i] as int {
        if i > 0 { assert s[1..][i - 1] == s[i] && C(s)[i] == C(s[1..])[i - 1]; }
      }
    }
  }

  // A printed address reads back.
  function HexValue(t: seq<byte>): nat {
    if t == [] then 0 else
      HexValue(t[..|t| - 1]) * 16 + var d := t[|t| - 1]; if 0x30 <= d <= 0x39 then d - 0x30 else if d >= 0x61 then d - 0x57 else 0
  }

  lemma {:induction false} HexReads(v: nat)
    ensures HexValue(Hex(v)) == v && forall i :: 0 <= i < |Hex(v)| ==> Hex(v)[i] != 0x40
  {
    if v < 16 {
      assert [Digit(v)][..0] == [];
    } else {
      HexReads(v / 16);
      assert Hex(v)[..|Hex(v)| - 1] == Hex(v / 16);
    }
  }

  // The value is these big-endian 32-bit cells.
  predicate CellsAre(value: seq<byte>, cells: seq<int>) {
    |value| == 4 * |cells| && forall i :: 0 <= i < |cells| ==> BeAt(value, 4 * i) == cells[i]
  }

  // The i-th property has this name and these cells, or this text.
  predicate HasCells(n: Node, i: nat, name: string, cells: seq<int>) {
    i < |n.props| && n.props[i].name == C(name) && CellsAre(n.props[i].value, cells)
  }

  predicate HasText(n: Node, i: nat, name: string, text: seq<byte>) {
    i < |n.props| && n.props[i].name == C(name) && n.props[i].value == text + [0]
  }

  lemma {:induction false} CellsRead(vs: seq<u32>)
    ensures CellsAre(Cells(vs), vs)
  {
    hide U32Be;
    if vs != [] {
      var n := |vs| - 1;
      CellsRead(vs[..n]);
      var all, front := Cells(vs), Cells(vs[..n]);
      assert all[..|front|] == front;
      forall i | 0 <= i < |vs| ensures BeAt(all, 4 * i) == vs[i] {
        if i < n { SameCell(all, front, 4 * i); } else { BeIn(all, 4 * n, vs[n]); }
      }
    }
  }

  lemma SameCell(all: seq<byte>, front: seq<byte>, at: nat)
    requires |front| <= |all| && all[..|front|] == front && at + 4 <= |front|
    ensures BeAt(all, at) == BeAt(front, at)
  {
    assert forall i :: at <= i < at + 4 ==> all[i] == all[..|front|][i];
  }

  lemma RegRead(base: u64, size: u64)
    ensures CellsAre(Reg(base, size), [base / 0x1_0000_0000, base % 0x1_0000_0000,
                                       size / 0x1_0000_0000, size % 0x1_0000_0000])
  {
    hide U32Be;
    var r := Reg(base, size);
    BeIn(r, 0, base / U32_SPAN);
    BeIn(r, 4, Low32(base));
    BeIn(r, 8, size / U32_SPAN);
    BeIn(r, 12, Low32(size));
  }

  lemma CellRead(v: u32)
    ensures CellsAre(U32Be(v), [v])
  {
    BeRoundTrip(v);
  }

  // Where RAM is, and how much.
  predicate MemoryView(n: Node, base: u64, size: u64) {
    && n.name == C("memory@") + Hex(base) && HasText(n, 0, "device_type", C("memory"))
    && HasCells(n, 1, "reg", [base / 0x1_0000_0000, base % 0x1_0000_0000, size / 0x1_0000_0000, size % 0x1_0000_0000])
  }

  predicate CpuView(n: Node, i: nat, cpus: nat) {
    && n.name == C("cpu@") + Hex(i) && HasText(n, 0, "device_type", C("cpu")) && HasCells(n, 2, "reg", [i])
    && (if cpus > 1 then HasText(n, 3, "enable-method", C("psci")) else |n.props| == 3)
  }

  // The registers and the interrupt of virtio transport k: 512 bytes each from 0x0A00_0000 on, edge-triggered
  // shared interrupt 16 + k.
  predicate VirtioView(n: Node, k: nat) {
    && n.name == C("virtio_mmio@") + Hex(0x0A00_0000 + k * 0x200) && HasText(n, 0, "compatible", C("virtio,mmio"))
    && HasCells(n, 1, "reg", [0, 0x0A00_0000 + k * 0x200, 0, 0x200])
    && HasCells(n, 3, "interrupts", [0, 16 + k, 1])
  }

  predicate ChosenView(n: Node, cmdline: seq<byte>, kaslr: u64, rng: seq<byte>) {
    && n.name == C("chosen") && HasText(n, 0, "bootargs", cmdline)
    && HasCells(n, 2, "kaslr-seed", [kaslr / 0x1_0000_0000, kaslr % 0x1_0000_0000])
    && |n.props| == 4 && n.props[3] == Prop(C("rng-seed"), rng)
  }

  // The interrupt controller with one redistributor frame for each CPU.
  predicate IntcView(n: Node, cpus: nat) {
    && HasCells(n, 0, "phandle", [1])
    && HasCells(n, 7, "reg", [0, 0x0800_0000, 0, 0x1_0000, 0, 0x080A_0000, 0, 0x2_0000 * cpus % 0x1_0000_0000])
  }

  predicate DevicesView(ns: seq<Node>) {
    && |ns| == 8
    && HasCells(ns[0], 1, "interrupts", [1, 13, 4, 1, 14, 4, 1, 11, 4, 1, 10, 4])
    && HasCells(ns[1], 1, "reg", [0, 0x0900_0000, 0, 0x1000]) && HasCells(ns[1], 2, "interrupts", [0, 1, 4])
    && HasCells(ns[4], 1, "reg", [0, 0x0901_0000, 0, 0x1000]) && HasCells(ns[4], 2, "interrupts", [0, 2, 4])
    && HasCells(ns[5], 1, "reg", [0, 0x0903_0000, 0, 0x1000]) && HasCells(ns[5], 4, "interrupts", [0, 7, 4])
    && HasCells(ns[7], 1, "reg", [0, 0x0902_0000, 0, 0x18])
  }

  // Pin p of PCI slot s goes to interrupt 3 + (p + s) mod 4.
  predicate PcieView(n: Node) {
    && HasCells(n, 7, "reg", [0, 0x3F00_0000, 0, 0x0100_0000])
    && |n.props| == 12 && n.props[10].name == C("interrupt-map") && |n.props[10].value| == 640
    && forall s, p :: 0 <= s < 4 && 0 <= p < 4 ==> Routes(n.props[10].value, s, p)
  }

  predicate Routes(routes: seq<byte>, s: nat, p: nat)
    requires |routes| == 640 && s < 4 && p < 4
  {
    var at := 160 * s + 40 * p;
    BeAt(routes, at) == 0x800 * s && BeAt(routes, at + 12) == p + 1 && BeAt(routes, at + 32) == 3 + (p + s) % 4
  }

  predicate CpusView(n: Node, cpus: nat) {
    n.name == C("cpus") && |n.children| == cpus && forall i :: 0 <= i < cpus ==> CpuView(n.children[i], i, cpus)
  }

  predicate VirtioViews(ns: seq<Node>) { |ns| == 32 && forall k :: 0 <= k < 32 ==> VirtioView(ns[k], k) }

  // The whole tree as the guest reads it.
  predicate View(c: Config, root: Node) {
    var ns := root.children;
    && |ns| == 48
    && HasCells(root, 0, "#address-cells", [2]) && HasCells(root, 1, "#size-cells", [2])
    && ChosenView(ns[1], c.cmdline, c.kaslr, c.rng)
    && CpusView(ns[2], c.cpus)
    && HasText(ns[3], 1, "method", C("hvc"))
    && MemoryView(ns[4], c.ramBase, c.ramSize)
    && IntcView(ns[5], c.cpus)
    && DevicesView(ns[6..14])
    && VirtioViews(ns[14..46])
    && PcieView(ns[46])
    && HasCells(ns[47], 1, "reg", [0, 0x0B00_0000, 0, 0x1000])
  }

  lemma MemorySeen(base: u64, size: u64)
    ensures MemoryView(MemoryNode(base, size), base, size)
  {
    hide C, Reg, CellsAre;
    RegRead(base, size);
  }

  lemma CpuSeen(i: u32, cpus: u32)
    ensures CpuView(CpuNode(i, cpus), i, cpus)
  {
    hide C, CellsAre, U32Be;
    CellRead(i);
  }

  lemma VirtioSeen(k: nat)
    requires k < 32
    ensures VirtioView(VirtioNode(0x0A00_0000 + k * 0x200, 16 + k), k)
  {
    hide C, Reg, CellsAre, U32Be, Cells;
    RegRead(0x0A00_0000 + k * 0x200, 0x200);
    CellsRead([0, 16 + k, 1]);
  }

  lemma ChosenSeen(cmdline: seq<byte>, kaslr: u64, rng: seq<byte>)
    ensures ChosenView(ChosenNode(cmdline, kaslr, rng), cmdline, kaslr, rng)
  {
    hide C, U32Be;
    var b := U64Be(kaslr);
    BeIn(b, 0, kaslr / U32_SPAN);
    BeIn(b, 4, Low32(kaslr));
  }

  lemma IntcSeen(cpus: u32)
    ensures IntcView(IntcNode(cpus), cpus)
  {
    hide C, CellsAre, U32Be, Cells;
    CellRead(1);
    CellsRead([0, 0x0800_0000, 0, 0x1_0000, 0, 0x080A_0000, 0, Low32(0x2_0000 * cpus)]);
  }

  lemma DevicesSeen()
    ensures DevicesView(DeviceNodes())
  {
    hide C, CellsAre, U32Be, Cells, Reg, Cstrs;
    CellsRead([1, 13, 4, 1, 14, 4, 1, 11, 4, 1, 10, 4]);
    CellsRead([0, 1, 4]);
    CellsRead([0, 2, 4]);
    CellsRead([0, 7, 4]);
    RegRead(0x0900_0000, 0x1000);
    RegRead(0x0901_0000, 0x1000);
    RegRead(0x0903_0000, 0x1000);
    RegRead(0x0902_0000, 0x18);
  }

  lemma {:induction false} IntxAt(slot: nat, pin: nat, s: nat, p: nat)
    requires slot <= 4 && pin <= 4 && (slot == 4 ==> pin == 0) && p < 4 && (s < slot || (s == slot && p < pin))
    ensures |IntxBefore(slot, pin)| == 40 * slot + 10 * pin
    ensures IntxBefore(slot, pin)[40 * s + 10 * p..40 * s + 10 * p + 10] == IntxEntry(s, p)
    decreases slot, pin
  {
    hide IntxEntry;
    IntxSize(slot, pin);
    if pin > 0 {
      IntxSize(slot, pin - 1);
      var front, all := IntxBefore(slot, pin - 1), IntxBefore(slot, pin);
      if s == slot && p == pin - 1 {
        assert all[|front|..] == IntxEntry(s, p);
      } else {
        IntxAt(slot, pin - 1, s, p);
        assert all[40 * s + 10 * p..40 * s + 10 * p + 10] == front[40 * s + 10 * p..40 * s + 10 * p + 10];
      }
    } else {
      IntxAt(slot - 1, 4, s, p);
    }
  }

  lemma {:induction false} IntxSize(slot: nat, pin: nat)
    requires slot <= 4 && pin <= 4 && (slot == 4 ==> pin == 0)
    ensures |IntxBefore(slot, pin)| == 40 * slot + 10 * pin
    decreases slot, pin
  {
    if pin > 0 {
      IntxSize(slot, pin - 1);
    } else if slot > 0 {
      IntxSize(slot - 1, 4);
    }
  }

  lemma RoutesSeen(s: nat, p: nat)
    requires s < 4 && p < 4
    ensures |Cells(IntxBefore(4, 0))| == 640 && Routes(Cells(IntxBefore(4, 0)), s, p)
  {
    hide IntxBefore, Cells, BeAt;
    var cells := IntxBefore(4, 0);
    IntxAt(4, 0, s, p);
    CellsRead(cells);
    var e, at := IntxEntry(s, p), 40 * s + 10 * p;
    assert cells[at..at + 10] == e;
    assert cells[at] == e[0] && cells[at + 3] == e[3] && cells[at + 8] == e[8];
    assert BeAt(Cells(cells), 4 * at) == cells[at];
    assert BeAt(Cells(cells), 4 * (at + 3)) == cells[at + 3];
    assert BeAt(Cells(cells), 4 * (at + 8)) == cells[at + 8];
  }

  lemma PcieSeen()
    ensures PcieView(PcieNode())
  {
    hide C, CellsAre, U32Be, Cells, Reg, IntxBefore, Routes;
    RegRead(0x3F00_0000, 0x0100_0000);
    RoutesSeen(0, 0);
    forall s, p | 0 <= s < 4 && 0 <= p < 4 ensures Routes(Cells(IntxBefore(4, 0)), s, p) { RoutesSeen(s, p); }
  }

  lemma {:induction false} CpuNodeAt(n: u32, cpus: u32, i: u32)
    requires i < n
    ensures |CpuNodes(n, cpus)| == n && CpuNodes(n, cpus)[i] == CpuNode(i, cpus)
  {
    hide CpuNode;
    if i < n - 1 { CpuNodeAt(n - 1, cpus, i); } else if n > 1 { CpuNodeAt(n - 1, cpus, 0); }
  }

  lemma CpusSeen(cpus: u32)
    ensures CpusView(CpusNode(cpus), cpus)
  {
    hide CpuView, CpuNode, C;
    if cpus > 0 { CpuNodeAt(cpus, cpus, 0); }
    forall i | 0 <= i < cpus ensures CpuView(CpusNode(cpus).children[i], i, cpus) {
      CpuNodeAt(cpus, cpus, i);
      CpuSeen(i, cpus);
    }
  }

  lemma {:induction false} VirtioNodeAt(n: nat, k: nat)
    requires k < n <= VIRTIO_COUNT
    ensures |VirtioNodes(n)| == n && VirtioNodes(n)[k] == VirtioNode(0x0A00_0000 + k * 0x200, 16 + k)
  {
    hide VirtioNode;
    if k < n - 1 { VirtioNodeAt(n - 1, k); } else if n > 1 { VirtioNodeAt(n - 1, 0); }
  }

  lemma VirtiosSeen()
    ensures VirtioViews(VirtioNodes(VIRTIO_COUNT))
  {
    hide VirtioView, VirtioNode, VirtioNodes;
    VirtioNodeAt(VIRTIO_COUNT, 0);
    var ns := VirtioNodes(VIRTIO_COUNT);
    forall k | 0 <= k < 32 ensures VirtioView(ns[k], k) {
      VirtioNodeAt(VIRTIO_COUNT, k);
      VirtioSeen(k);
    }
  }

  // The intended tree says all of that.
  lemma TreeSeen(c: Config)
    ensures View(c, RootNode(c))
  {
    hide C, MemoryView, CpusView, VirtioViews, ChosenView, IntcView, DevicesView, PcieView, CellsAre, U32Be, Cells, Reg;
    hide AliasesNode, ChosenNode, CpusNode, MemoryNode, IntcNode, DeviceNodes, PcieNode, VirtioNode, VirtioNodes;
    var ns := RootNode(c).children;
    VirtioNodeAt(VIRTIO_COUNT, 0);
    EightDevices();
    ChosenSeen(c.cmdline, c.kaslr, c.rng);
    CpusSeen(c.cpus);
    MemorySeen(c.ramBase, c.ramSize);
    IntcSeen(c.cpus);
    DevicesSeen();
    VirtiosSeen();
    assert ns[6..14] == DeviceNodes() && ns[14..46] == VirtioNodes(VIRTIO_COUNT);
    PcieSeen();
    RegRead(0x0B00_0000, 0x1000);
    CellRead(2);
  }

  lemma EightDevices()
    ensures |DeviceNodes()| == 8
  {
  }
}
