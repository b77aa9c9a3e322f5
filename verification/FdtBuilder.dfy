// The HVF back end's devicetree builder (native/hvf/backend.cc:345-810): the buffer and the strings block that
// its methods append to always encode a partly built tree, and the finished blob reads back as the tree.
module FdtBuild {
  import opened Bytes
  import opened FdtFormat
  import opened FdtTree

  const STRUCT_OFFSET: nat := 56
  const MAGIC: u32 := 0xD00D_FEED

  // ---- The partly built tree ----

  // The tokens of a node that has not been closed.
  function PartTokens(n: Node): seq<Token> { [Begin(n.name)] + FlatProps(n.props) + FlatAll(n.children) }

  // The open nodes, outermost first.
  function StackTokens(stack: seq<Node>): seq<Token> {
    if stack == [] then [] else StackTokens(stack[..|stack| - 1]) + PartTokens(stack[|stack| - 1])
  }

  lemma StackTop(base: seq<Node>, n: Node)
    ensures StackTokens(base + [n]) == StackTokens(base) + PartTokens(n)
  {
    assert (base + [n])[..|base|] == base;
  }

  lemma {:induction false} FlatPropsAppend(ps: seq<Prop>, p: Prop)
    ensures FlatProps(ps + [p]) == FlatProps(ps) + [Property(p)]
  {
    if ps == [] {
      assert ps + [p] == [p] && [p][1..] == [];
    } else {
      assert (ps + [p])[1..] == ps[1..] + [p];
      FlatPropsAppend(ps[1..], p);
    }
  }

  lemma {:induction false} FlatAllAppend(ns: seq<Node>, n: Node)
    ensures FlatAll(ns + [n]) == FlatAll(ns) + Flat(n)
  {
    hide Flat;
    if ns == [] {
      assert ns + [n] == [n] && [n][1..] == [];
    } else {
      assert (ns + [n])[1..] == ns[1..] + [n];
      FlatAllAppend(ns[1..], n);
    }
  }

  lemma Round4Shift(a: nat, n: nat)
    requires a % 4 == 0
    ensures Round4(a + n) == a + Round4(n)
  {
  }

  // ---- The blob ----

  // Magic, total size, the blocks' offsets, versions, boot CPU and the blocks' sizes.
  function Header(total: nat, size: nat, stringsSize: nat): seq<byte> {
    U32Be(MAGIC) + U32Be(Low32(total)) + U32Be(STRUCT_OFFSET) + U32Be(Low32(STRUCT_OFFSET + size)) + U32Be(40)
    + U32Be(17) + U32Be(16) + U32Be(0) + U32Be(Low32(stringsSize)) + U32Be(Low32(size))
  }

  function Blob(root: Node): seq<byte> {
    var body := Encode(Flat(root), 0) + U32Be(9);
    var strings := Strings(Flat(root));
    var all := STRUCT_OFFSET + |body| + |strings|;
    Header(Round4(all), |body|, |strings|) + (Zeros(16) + body + strings + Zeros(Round4(all) - all))
  }

  function ParseBlob(b: seq<byte>): Option<Node> {
    if |b| < 40 || BeAt(b, 0) != MAGIC || BeAt(b, 4) != |b| then None else
      var at, stringsAt, stringsSize, size := BeAt(b, 8), BeAt(b, 12), BeAt(b, 32), BeAt(b, 36);
      if at + size > |b| || stringsAt + stringsSize > |b| then None else
        match Lex(b[at..at + size], b[stringsAt..stringsAt + stringsSize])
        case None => None
        case Some(ts) =>
          match ParseNode(ts)
          case None => None
          case Some((n, used)) => if used == |ts| then Some(n) else None
  }

  lemma BlobShape(root: Node)
    ensures var b := Blob(root);
            var body, strings := Encode(Flat(root), 0) + U32Be(9), Strings(Flat(root));
      && |b| == Round4(STRUCT_OFFSET + |body| + |strings|)
      && BeAt(b, 0) == MAGIC && BeAt(b, 4) == Low32(|b|) && BeAt(b, 8) == STRUCT_OFFSET
      && BeAt(b, 12) == Low32(STRUCT_OFFSET + |body|) && BeAt(b, 32) == Low32(|strings|) && BeAt(b, 36) == Low32(|body|)
      && b[STRUCT_OFFSET..STRUCT_OFFSET + |body|] == body
      && b[STRUCT_OFFSET + |body|..STRUCT_OFFSET + |body| + |strings|] == strings
  {
    hide U32Be, Low32, Encode, Strings, Round4, BeAt, Flat;
    var b := Blob(root);
    var body, strings := Encode(Flat(root), 0) + U32Be(9), Strings(Flat(root));
    BeIn(b, 0, MAGIC);
    BeIn(b, 4, Low32(|b|));
    BeIn(b, 8, STRUCT_OFFSET);
    BeIn(b, 12, Low32(STRUCT_OFFSET + |body|));
    BeIn(b, 32, Low32(|strings|));
    BeIn(b, 36, Low32(|body|));
  }

  // The magic number, byte by byte.
  lemma BlobMagic(root: Node)
    ensures |Blob(root)| >= 4 && Blob(root)[..4] == [0xD0, 0x0D, 0xFE, 0xED]
  {
    hide Blob, BeAt;
    BlobShape(root);
    MagicBytes(Blob(root));
  }

  lemma MagicBytes(b: seq<byte>)
    requires |b| >= 4 && BeAt(b, 0) == MAGIC
    ensures b[..4] == [0xD0, 0x0D, 0xFE, 0xED]
  {
  }

  // In terms of the blob itself: it reads back exactly when its length and that of every value fit in 32 bits.
  lemma BlobReads(root: Node)
    ensures ParseBlob(Blob(root)) == Some(root) <==> |Blob(root)| < U32_SPAN && FdtFormat.Fits(Flat(root))
  {
    hide Encode, Strings, Blob, Lex, ParseNode, BeAt, Flat, Round4, U32Be, Low32, FdtFormat.Fits;
    var b := Blob(root);
    BlobShape(root);
    Low32Same(|b|);
    if |b| < U32_SPAN {
      var ts := Flat(root);
      var body, strings := Encode(ts, 0) + U32Be(9), Strings(ts);
      Low32Same(STRUCT_OFFSET + |body|);
      Low32Same(|strings|);
      Low32Same(|body|);
      if FdtFormat.Fits(ts) {
        assert strings[0..0 + |Strings(ts)|] == strings;
        LexRoundTrip(ts, 0, strings);
        NodeRoundTrip(root, []);
        assert ts + [] == ts;
      } else if ParseBlob(b).Some? {
        LexFits(body, strings);
        var lexed := Lex(body, strings).value;
        NodeSound(lexed);
        assert lexed[..|lexed|] == lexed;
      }
    }
  }

  // Header and reserve map, the tree's nodes, the end token and the property names, rounded up.
  function BlobSize(root: Node): nat {
    Round4(STRUCT_OFFSET + NodeSize(root).bytes + 4 + NodeSize(root).text)
  }

  // The blob reads back as the tree exactly when the size computed from the tree fits in 32 bits, and then
  // that is its length.
  lemma BlobIff(root: Node)
    ensures ParseBlob(Blob(root)) == Some(root) <==> BlobSize(root) < U32_SPAN
    ensures BlobSize(root) < U32_SPAN ==> |Blob(root)| == BlobSize(root)
  {
    hide Encode, Strings, Blob, ParseBlob, BeAt, Flat, U32Be, Low32, FdtFormat.Fits, TokensSize, NodeSize;
    BlobShape(root);
    BlobReads(root);
    NodeSizes(root);
    if TokensSize(Flat(root)).bytes < U32_SPAN { SmallFits(Flat(root)); }
    if FdtFormat.Fits(Flat(root)) { EncodeSize(Flat(root), 0); }
    StringsSize(Flat(root));
  }

  class FdtBuilder {
    var buf: seq<byte>
    var strBuf: seq<byte>
    // The node being written, without what follows, and the open nodes around it.
    ghost var node: Node
    ghost var outer: seq<Node>

    ghost predicate Valid()
      reads this
    {
      && buf == Zeros(STRUCT_OFFSET) + Encode(StackTokens(outer + [node]), 0)
      && strBuf == Strings(StackTokens(outer + [node]))
    }

    constructor ()
    {
      buf, strBuf := [], [];
    }

    method AppendU32(v: u32)
      modifies `buf
      ensures buf == old(buf) + U32Be(v)
    {
      buf := buf + U32Be(v);
    }

    method AppendStr(s: seq<byte>)
      modifies `buf
      ensures buf == old(buf) + s + [0]
    {
      buf := buf + s;
      buf := buf + [0];
    }

    method Align4()
      modifies `buf
      ensures buf == old(buf) + Zeros(Round4(old(|buf|)) - old(|buf|))
    {
      while |buf| % 4 != 0
        invariant Round4(|buf|) == Round4(old(|buf|)) && old(|buf|) <= |buf|
        invariant buf == old(buf) + Zeros(|buf| - old(|buf|))
        decreases Round4(old(|buf|)) - |buf|
      {
        buf := buf + [0];
      }
    }

    method AddString(name: Text) returns (off: u32)
      modifies `strBuf
      ensures off == Low32(old(|strBuf|)) && strBuf == old(strBuf) + name + [0]
    {
      off := Low32(|strBuf|);
      strBuf := strBuf + name + [0];
    }

    // Build's first steps: an empty header and reserve map, then the root.
    method BeginRoot()
      modifies this
      ensures Valid() && node == Node([], [], []) && outer == []
    {
      hide U32Be, Round4, Encode, Strings, PartTokens, TokenBytes;
      buf, strBuf := Zeros(STRUCT_OFFSET), [];
      AppendU32(1);
      AppendStr([]);
      BeginBytes([], []);
      NothingYet();
      assert buf == Zeros(STRUCT_OFFSET) + Encode([], 0) + U32Be(1) + [] + [0];
      Align4();
      node, outer := Node([], [], []), [];
      NewTokens([]);
      assert outer + [node] == [node];
      StackTop([], node);
      assert [] + [Begin([])] == [Begin([])];
    }

    // The calls that open a node: its token, its name and the padding.
    method BeginNode(name: Text)
      requires Valid()
      modifies this
      ensures Valid() && node == Node(name, [], []) && outer == old(outer + [node])
    {
      hide U32Be, Round4, StackTokens, Encode, Strings, PartTokens, TokenBytes;
      ghost var ts, n := StackTokens(outer + [node]), Node(name, [], []);
      AppendU32(1);
      AppendStr(name);
      BeginBytes(ts, name);
      Align4();
      StackTop(outer + [node], n);
      NewTokens(name);
      node, outer := n, outer + [node];
    }

    method AppendPropRaw(name: Text, data: seq<byte>)
      requires Valid() && node.children == []
      modifies this
      ensures Valid() && outer == old(outer) && node == Plus(old(node), Prop(name, data))
    {
      hide U32Be, Round4, StackTokens, Low32, Encode, Strings, TokenBytes;
      ghost var ts, p := StackTokens(outer + [node]), Prop(name, data);
      AppendU32(3);
      AppendU32(Low32(|data|));
      var off := AddString(name);
      AppendU32(off);
      if Low32(|data|) > 0 { buf := buf + data[..Low32(|data|)]; }
      assert buf == Zeros(STRUCT_OFFSET) + Encode(ts, 0) + U32Be(3) + U32Be(Low32(|data|)) + U32Be(off)
          + data[..Low32(|data|)];
      PropertyBytes(ts, p);
      Align4();
      PropTokens(outer, node, p);
      node := Plus(node, p);
    }

    // The token that closes a node below the root.
    method EndNode()
      requires Valid() && outer != []
      modifies this
      ensures Valid() && outer == old(outer[..|outer| - 1]) && node == With(old(outer[|outer| - 1]), old(node))
    {
      hide U32Be, StackTokens, Encode, Strings;
      ghost var ts, k := StackTokens(outer + [node]), |outer| - 1;
      AppendU32(2);
      EncodeAppend(ts, End, 0);
      StringsAppend(ts, End);
      CloseTokens(outer[..k], outer[k], node);
      assert outer == outer[..k] + [outer[k]];
      node, outer := With(outer[k], node), outer[..k];
    }

    method AppendPropU32(name: Text, value: u32)
      requires Valid() && node.children == []
      modifies this
      ensures Valid() && outer == old(outer) && node == Plus(old(node), Prop(name, U32Be(value)))
    {
      AppendPropRaw(name, U32Be(value));
    }

    method AppendPropStr(name: Text, value: seq<byte>)
      requires Valid() && node.children == []
      modifies this
      ensures Valid() && outer == old(outer) && node == Plus(old(node), Prop(name, Cstr(value)))
    {
      AppendPropRaw(name, Cstr(value));
    }

    method AppendPropStringList(name: Text, values: seq<Text>)
      requires Valid() && node.children == []
      modifies this
      ensures Valid() && outer == old(outer) && node == Plus(old(node), Prop(name, Cstrs(values)))
    {
      var data: seq<byte> := [];
      for i := 0 to |values|
        invariant Valid() && outer == old(outer) && node == old(node) && data == Cstrs(values[..i])
      {
        assert values[..i + 1][..i] == values[..i];
        data := data + Cstr(values[i]);
      }
      assert values[..|values|] == values;
      AppendPropRaw(name, data);
    }

    // A node written as Build writes its fixed ones: the properties, then the children, then the end token.
    method AppendNode(n: Node)
      requires Valid()
      modifies this
      ensures Valid() && outer == old(outer) && node == With(old(node), n)
      decreases n
    {
      hide Valid;
      BeginNode(n.name);
      for i := 0 to |n.props|
        invariant Valid() && outer == old(outer + [node]) && node == Node(n.name, n.props[..i], [])
      {
        AppendPropRaw(n.props[i].name, n.props[i].value);
      }
      AppendNodes(n.children);
      assert n.props[..|n.props|] == n.props && [] + n.children == n.children;
      EndNode();
    }

    method AppendNodes(ns: seq<Node>)
      requires Valid()
      modifies this
      ensures Valid() && outer == old(outer) && node == old(node).(children := old(node).children + ns)
      decreases ns
    {
      hide Valid;
      if ns != [] {
        AppendNode(ns[0]);
        AppendNodes(ns[1..]);
        assert [ns[0]] + ns[1..] == ns;
      }
    }

    method Aliases()
      requires Valid()
      modifies this
      ensures Valid() && outer == old(outer) && node == With(old(node), AliasesNode())
    {
      hide Valid, C, Hex, U32Be, U64Be, Cstrs, Cells, Low32;
      BeginNode(C("aliases"));
      AppendPropStr(C("serial0"), C("/pl011@9000000"));
      assert node == AliasesNode();
      EndNode();
    }

    method Chosen(cmdline: seq<byte>, kaslr: u64, rng: seq<byte>)
      requires Valid()
      modifies this
      ensures Valid() && outer == old(outer) && node == With(old(node), ChosenNode(cmdline, kaslr, rng))
    {
      hide Valid, C, Hex, U32Be, U64Be, Cstrs, Cells, Low32;
      BeginNode(C("chosen"));
      AppendPropStr(C("bootargs"), cmdline);
      AppendPropStr(C("stdout-path"), C("/pl011@9000000"));
      AppendPropRaw(C("kaslr-seed"), U64Be(kaslr));
      AppendPropRaw(C("rng-seed"), rng);
      assert node == ChosenNode(cmdline, kaslr, rng);
      EndNode();
    }

    method Cpu(i: u32, cpus: u32)
      requires Valid()
      modifies this
      ensures Valid() && outer == old(outer) && node == With(old(node), CpuNode(i, cpus))
    {
      hide Valid, C, Hex, U32Be, U64Be, Cstrs, Cells, Low32;
      BeginNode(C("cpu@") + Hex(i));
      AppendPropStr(C("device_type"), C("cpu"));
      AppendPropStr(C("compatible"), C("arm,arm-v8"));
      AppendPropU32(C("reg"), i);
      if cpus > 1 {
        AppendPropStr(C("enable-method"), C("psci"));
      }
      assert node == CpuNode(i, cpus);
      EndNode();
    }

    method Cpus(cpus: u32)
      requires Valid()
      modifies this
      ensures Valid() && outer == old(outer) && node == With(old(node), CpusNode(cpus))
    {
      hide Valid, C, Hex, U32Be, U64Be, Cstrs, Cells, Low32;
      BeginNode(C("cpus"));
      AppendPropU32(C("#address-cells"), 1);
      AppendPropU32(C("#size-cells"), 0);
      ghost var cpusNode := node;
      for i := 0 to cpus
        invariant Valid() && outer == old(outer + [node]) && node == cpusNode.(children := CpuNodes(i, cpus))
      {
        Cpu(i, cpus);
      }
      assert node == CpusNode(cpus);
      EndNode();
    }

    method Psci()
      requires Valid()
      modifies this
      ensures Valid() && outer == old(outer) && node == With(old(node), PsciNode())
    {
      hide Valid, C, Hex, U32Be, U64Be, Cstrs, Cells, Low32;
      BeginNode(C("psci"));
      AppendPropStringList(C("compatible"), [C("arm,psci-1.0"), C("arm,psci-0.2"), C("arm,psci")]);
      AppendPropStr(C("method"), C("hvc"));
      assert node == PsciNode();
      EndNode();
    }

    method Memory(base: u64, size: u64)
      requires Valid()
      modifies this
      ensures Valid() && outer == old(outer) && node == With(old(node), MemoryNode(base, size))
    {
      hide Valid, C, Hex, U32Be, U64Be, Cstrs, Cells, Low32;
      BeginNode(C("memory@") + Hex(base));
      AppendPropStr(C("device_type"), C("memory"));
      AppendPropRaw(C("reg"), Reg(base, size));
      assert node == MemoryNode(base, size);
      EndNode();
    }

    method Intc(cpus: u32)
      requires Valid()
      modifies this
      ensures Valid() && outer == old(outer) && node == With(old(node), IntcNode(cpus))
    {
      hide Valid, C, Hex, U32Be, U64Be, Cstrs, Cells, Low32;
      BeginNode(C("intc@8000000"));
      AppendPropU32(C("phandle"), 1);
      AppendPropStr(C("compatible"), C("arm,gic-v3"));
      AppendPropU32(C("#address-cells"), 2);
      AppendPropU32(C("#size-cells"), 2);
      AppendPropU32(C("#interrupt-cells"), 3);
      AppendPropRaw(C("interrupt-controller"), []);
      AppendPropRaw(C("ranges"), []);
      AppendPropRaw(C("reg"), Cells([0, 0x0800_0000, 0, 0x1_0000, 0, 0x080A_0000, 0, Low32(0x2_0000 * cpus)]));
      assert node == IntcNode(cpus);
      EndNode();
    }

    // AppendVirtioNode
    method Virtio(base: u64, spi: u32)
      requires Valid()
      modifies this
      ensures Valid() && outer == old(outer) && node == With(old(node), VirtioNode(base, spi))
    {
      hide Valid, C, Hex, U32Be, U64Be, Cstrs, Cells, Low32;
      BeginNode(C("virtio_mmio@") + Hex(base));
      AppendPropStr(C("compatible"), C("virtio,mmio"));
      AppendPropRaw(C("reg"), Reg(base, 0x200));
      AppendPropU32(C("interrupt-parent"), 1);
      AppendPropRaw(C("interrupts"), Cells([0, spi, 1]));
      AppendPropRaw(C("dma-coherent"), []);
      assert node == VirtioNode(base, spi);
      EndNode();
    }

    method RootProperties()
      requires Valid() && node == Node([], [], [])
      modifies this
      ensures Valid() && outer == old(outer) && node == Node([], RootProps(), [])
    {
      hide Valid, C, U32Be;
      AppendPropU32(C("#address-cells"), 2);
      AppendPropU32(C("#size-cells"), 2);
      AppendPropStr(C("compatible"), C("linux,dummy-virt"));
      AppendPropStr(C("model"), C("node-vmm-hvf"));
      AppendPropU32(C("interrupt-parent"), 1);
      AppendPropRaw(C("dma-coherent"), []);
    }

    method VirtioTransports(count: nat)
      requires Valid() && count <= VIRTIO_COUNT
      modifies this
      ensures Valid() && outer == old(outer) && node == old(node).(children := old(node).children + VirtioNodes(count))
    {
      hide Valid, VirtioNode;
      for slot := 0 to count
        invariant Valid() && outer == old(outer)
        invariant node == old(node).(children := old(node).children + VirtioNodes(slot))
      {
        Virtio(0x0A00_0000 + slot * 0x200, 16 + slot);
      }
    }

    // Build up to FDT_END: the root's properties, its children in order, and the token that closes it.
    method BuildTree(c: Config)
      modifies this
      ensures buf == Zeros(STRUCT_OFFSET) + Encode(Flat(RootNode(c)), 0) && strBuf == Strings(Flat(RootNode(c)))
    {
      hide Valid, RootProps, FrontNodes, VirtioNodes, DeviceNodes, PcieNode, ExitNode;
      BeginRoot();
      RootProperties();
      Front(c);
      AppendNodes(DeviceNodes());
      VirtioTransports(VIRTIO_COUNT);
      Pcie();
      AppendNode(ExitNode());
      assert node.children == FrontNodes(c) + DeviceNodes() + VirtioNodes(VIRTIO_COUNT) + [PcieNode(), ExitNode()];
      EndRoot(RootNode(c));
    }

    // The host bridge.
    method Pcie()
      requires Valid()
      modifies this
      ensures Valid() && outer == old(outer) && node == With(old(node), PcieNode())
    {
      hide Valid, C, U32Be, U64Be, Cstrs, Cells, Low32, IntxBefore, PcieProps;
      BeginNode(C("pcie@10000000"));
      PcieFront();
      var routes := IntxMap();
      AppendPropRaw(C("interrupt-map"), routes);
      AppendPropRaw(C("interrupt-map-mask"), Cells([0x1800, 0, 0, 7]));
      assert node == PcieNode();
      EndNode();
    }

    method PcieFront()
      requires Valid() && node == Node(C("pcie@10000000"), [], [])
      modifies this
      ensures Valid() && outer == old(outer) && node == Node(C("pcie@10000000"), PcieProps(), [])
    {
      hide Valid, C, U32Be, U64Be, Cstrs, Cells, Low32, IntxBefore;
      AppendPropStr(C("compatible"), C("pci-host-ecam-generic"));
      AppendPropStr(C("device_type"), C("pci"));
      AppendPropU32(C("#address-cells"), 3);
      AppendPropU32(C("#size-cells"), 2);
      AppendPropU32(C("linux,pci-domain"), 0);
      AppendPropRaw(C("bus-range"), Cells([0, 15]));
      AppendPropRaw(C("dma-coherent"), []);
      AppendPropRaw(C("reg"), Reg(0x3F00_0000, 0x0100_0000));
      AppendPropRaw(C("ranges"), Cells([0x0100_0000, 0, 0, 0, 0x3EFF_0000, 0, 0x1_0000,
                                        0x0200_0000, 0, 0x1000_0000, 0, 0x1000_0000, 0, 0x2EFF_0000]));
      AppendPropU32(C("#interrupt-cells"), 1);
    }

    method Front(c: Config)
      requires Valid()
      modifies this
      ensures Valid() && outer == old(outer) && node == old(node).(children := old(node).children + FrontNodes(c))
    {
      hide Valid, AliasesNode, ChosenNode, CpusNode, PsciNode, MemoryNode, IntcNode;
      Aliases();
      Chosen(c.cmdline, c.kaslr, c.rng);
      Cpus(c.cpus);
      Psci();
      Memory(c.ramBase, c.ramSize);
      Intc(c.cpus);
      assert node.children == old(node).children + FrontNodes(c);
    }

    method EndRoot(ghost root: Node)
      requires Valid() && outer == [] && node == root
      modifies this
      ensures buf == Zeros(STRUCT_OFFSET) + Encode(Flat(root), 0) && strBuf == Strings(Flat(root))
    {
      hide U32Be, StackTokens, Encode, Strings, PartTokens;
      ghost var ts := StackTokens(outer + [node]);
      AppendU32(2);
      EncodeAppend(ts, End, 0);
      StringsAppend(ts, End);
      RootTokens(root);
      assert outer + [node] == [root];
    }

    // The blob reads back exactly when its size allows, and then the guest reads from it what the machine was
    // asked for.
    method Build(c: Config) returns (blob: seq<byte>)
      modifies this
      ensures blob == Blob(RootNode(c))
      ensures ParseBlob(blob) == Some(RootNode(c)) <==> BlobSize(RootNode(c)) < U32_SPAN
      ensures BlobSize(RootNode(c)) < U32_SPAN ==> ParseBlob(blob).Some? && View(c, ParseBlob(blob).value)
    {
      hide U32Be, Encode, Strings, Flat, RootNode, Low32, Round4, ParseBlob, BlobSize, View;
      TreeSeen(c);
      BuildTree(c);
      AppendU32(9);
      ghost var body := Encode(Flat(RootNode(c)), 0) + U32Be(9);
      assert buf == Zeros(STRUCT_OFFSET) + body;
      var size, stringsAt := Low32(|buf| - STRUCT_OFFSET), Low32(|buf|);
      buf := buf + strBuf;
      Align4();
      BlobTail(body, strBuf);
      var header := U32Be(MAGIC) + U32Be(Low32(|buf|)) + U32Be(STRUCT_OFFSET) + U32Be(stringsAt) + U32Be(40)
                    + U32Be(17) + U32Be(16) + U32Be(0) + U32Be(Low32(|strBuf|)) + U32Be(size);
      assert header == Header(|buf|, |body|, |strBuf|);
      buf := header + buf[40..];
      blob := buf;
      BlobIff(RootNode(c));
    }
  }

  lemma NoCells()
    ensures Cells([]) == [] && IntxBefore(0, 0) == []
  {
  }

  lemma NextIntx(slot: nat, pin: nat)
    requires slot < 4 && pin < 4
    ensures IntxBefore(slot, pin + 1) == IntxBefore(slot, pin) + IntxEntry(slot, pin)
  {
  }

  lemma NextSlot(slot: nat)
    requires slot < 4
    ensures IntxBefore(slot + 1, 0) == IntxBefore(slot, 4)
  {
  }

  lemma {:induction false} CellsConcat(a: seq<u32>, b: seq<u32>)
    ensures Cells(a + b) == Cells(a) + Cells(b)
  {
    hide U32Be;
    if b == [] {
      assert a + b == a;
    } else {
      assert (a + b)[..|a + b| - 1] == a + b[..|b| - 1];
      CellsConcat(a, b[..|b| - 1]);
    }
  }

  // The loop over slots and pins.
  method IntxMap() returns (routes: seq<byte>)
    ensures routes == Cells(IntxBefore(4, 0))
  {
    hide U32Be, Cells, IntxBefore, IntxEntry;
    routes := [];
    NoCells();
    for slot := 0 to 4
      invariant routes == Cells(IntxBefore(slot, 0))
    {
      for pin := 0 to 4
        invariant routes == Cells(IntxBefore(slot, pin))
      {
        CellsConcat(IntxBefore(slot, pin), IntxEntry(slot, pin));
        NextIntx(slot, pin);
        routes := routes + Cells(IntxEntry(slot, pin));
      }
      NextSlot(slot);
    }
  }

  ghost function Plus(n: Node, p: Prop): Node { n.(props := n.props + [p]) }

  ghost function With(n: Node, child: Node): Node { n.(children := n.children + [child]) }

  lemma Aligned(ts: seq<Token>)
    ensures (STRUCT_OFFSET + |Encode(ts, 0)| + 4) % 4 == 0 && (STRUCT_OFFSET + |Encode(ts, 0)| + 12) % 4 == 0
  {
    EncodeAligned(ts, 0);
    hide Encode;
    AlignedSum(|Encode(ts, 0)|, 60);
    AlignedSum(|Encode(ts, 0)|, 68);
  }

  // What the calls that open a node append.
  lemma BeginBytes(ts: seq<Token>, name: Text)
    ensures var b := Zeros(STRUCT_OFFSET) + Encode(ts, 0) + U32Be(1) + name + [0];
            b + Zeros(Round4(|b|) - |b|) == Zeros(STRUCT_OFFSET) + Encode(ts + [Begin(name)], 0)
    ensures Strings(ts + [Begin(name)]) == Strings(ts)
  {
    hide U32Be, Round4, Encode, Strings;
    Aligned(ts);
    Round4Shift(STRUCT_OFFSET + |Encode(ts, 0)| + 4, |name + [0]|);
    EncodeAppend(ts, Begin(name), 0);
    StringsAppend(ts, Begin(name));
  }

  // What AppendPropRaw appends.
  lemma PropertyBytes(ts: seq<Token>, p: Prop)
    ensures var b := Zeros(STRUCT_OFFSET) + Encode(ts, 0) + U32Be(3) + U32Be(Low32(|p.value|))
            + U32Be(Low32(|Strings(ts)|))
                 + p.value[..Low32(|p.value|)];
            b + Zeros(Round4(|b|) - |b|) == Zeros(STRUCT_OFFSET) + Encode(ts + [Property(p)], 0)
    ensures Strings(ts + [Property(p)]) == Strings(ts) + p.name + [0]
  {
    hide U32Be, Round4, Encode, Strings, Low32;
    Aligned(ts);
    Round4Shift(STRUCT_OFFSET + |Encode(ts, 0)| + 12, |p.value[..Low32(|p.value|)]|);
    EncodeAppend(ts, Property(p), 0);
    StringsAppend(ts, Property(p));
  }

  lemma NewTokens(name: Text)
    ensures PartTokens(Node(name, [], [])) == [Begin(name)]
  {
  }

  lemma BlobTail(body: seq<byte>, strings: seq<byte>)
    ensures var b := Zeros(STRUCT_OFFSET) + body + strings;
            (b + Zeros(Round4(|b|) - |b|))[40..] == Zeros(16) + body + strings + Zeros(Round4(|b|) - |b|)
  {
    hide Round4;
  }

  lemma RootTokens(root: Node)
    ensures StackTokens([root]) + [End] == Flat(root)
  {
    StackTop([], root);
    assert [] + [root] == [root];
  }

  lemma NothingYet()
    ensures Encode([], 0) == [] && Strings([]) == [] && StackTokens([]) == []
  {
  }

  lemma PropTokens(outer: seq<Node>, n: Node, p: Prop)
    requires n.children == []
    ensures StackTokens(outer + [Plus(n, p)]) == StackTokens(outer + [n]) + [Property(p)]
  {
    hide StackTokens;
    FlatPropsAppend(n.props, p);
    StackTop(outer, Plus(n, p));
    StackTop(outer, n);
  }

  lemma ChildTokens(n: Node, child: Node)
    ensures PartTokens(With(n, child)) == PartTokens(n) + (PartTokens(child) + [End])
  {
    hide FlatProps, FlatAll;
    FlatAllAppend(n.children, child);
    assert Flat(child) == PartTokens(child) + [End];
  }

  lemma CloseTokens(outer: seq<Node>, n: Node, child: Node)
    ensures StackTokens(outer + [With(n, child)]) == StackTokens(outer + [n] + [child]) + [End]
  {
    hide StackTokens, PartTokens;
    ChildTokens(n, child);
    StackTop(outer, With(n, child));
    StackTop(outer, n);
    StackTop(outer + [n], child);
  }
}
