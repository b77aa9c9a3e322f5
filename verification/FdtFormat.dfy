// The flattened devicetree format (Devicetree Specification v0.4, sections 5.2, 5.4 and 5.5): trees, their
// token streams, the bytes of a structure block with its strings block, and a reader for both.
module FdtFormat {
  import opened Bytes

  // What a C string holds: bytes up to a NUL.
  type Text = t: seq<byte> | 0 !in t witness []

  datatype Prop = Prop(name: Text, value: seq<byte>)

  datatype Node = Node(name: Text, props: seq<Prop>, children: seq<Node>)

  datatype Token = Begin(name: Text) | Property(prop: Prop) | End

  // ---- Trees and tokens ----

  function FlatProps(ps: seq<Prop>): seq<Token> {
    if ps == [] then [] else [Property(ps[0])] + FlatProps(ps[1..])
  }

  function Flat(n: Node): seq<Token>
    decreases n
  {
    [Begin(n.name)] + FlatProps(n.props) + FlatAll(n.children) + [End]
  }

  function FlatAll(ns: seq<Node>): seq<Token>
    decreases ns
  {
    if ns == [] then [] else Flat(ns[0]) + FlatAll(ns[1..])
  }

  function ParseProps(ts: seq<Token>): (r: (seq<Prop>, nat))
    ensures r.1 <= |ts|
  {
    if ts == [] || !ts[0].Property? then ([], 0) else
      var rest := ParseProps(ts[1..]);
      ([ts[0].prop] + rest.0, rest.1 + 1)
  }

  // The node at the front of ts and how many tokens it takes.
  function ParseNode(ts: seq<Token>): (r: Option<(Node, nat)>)
    ensures r.Some? ==> 0 < r.value.1 <= |ts|
    decreases |ts|, 0
  {
    if ts == [] || !ts[0].Begin? then None else
      var props := ParseProps(ts[1..]);
      match ParseAll(ts[1 + props.1..])
      case None => None
      case Some((children, used)) =>
        var at := 1 + props.1 + used;
        if at < |ts| && ts[at].End? then Some((Node(ts[0].name, props.0, children), at + 1)) else None
  }

  function ParseAll(ts: seq<Token>): (r: Option<(seq<Node>, nat)>)
    ensures r.Some? ==> r.value.1 <= |ts|
    decreases |ts|, 1
  {
    if ts == [] || !ts[0].Begin? then Some(([], 0)) else
      match ParseNode(ts)
      case None => None
      case Some((n, used)) =>
        match ParseAll(ts[used..])
        case None => None
        case Some((ns, more)) => Some(([n] + ns, used + more))
  }

  lemma {:induction false} PropsRoundTrip(ps: seq<Prop>, rest: seq<Token>)
    requires rest != [] && !rest[0].Property?
    ensures ParseProps(FlatProps(ps) + rest) == (ps, |FlatProps(ps)|)
  {
    if ps != [] {
      PropsRoundTrip(ps[1..], rest);
      assert (FlatProps(ps) + rest)[1..] == FlatProps(ps[1..]) + rest;
      assert ps == [ps[0]] + ps[1..];
    } else {
      assert FlatProps(ps) + rest == rest;
    }
  }

  // Begin and End tokens balance: a flattened tree reads back as the tree, up to its own last token.
  lemma {:induction false} NodeRoundTrip(n: Node, rest: seq<Token>)
    ensures ParseNode(Flat(n) + rest) == Some((n, |Flat(n)|))
    decreases n, 1
  {
    hide FlatProps, FlatAll, ParseProps, ParseAll;
    var ts := Flat(n) + rest;
    var kids := FlatAll(n.children) + ([End] + rest);
    FlatAllHead(n.children);
    PropsRoundTrip(n.props, kids);
    AllRoundTrip(n.children, [End] + rest);
    assert ts[1..] == FlatProps(n.props) + kids;
    assert ts[1 + |FlatProps(n.props)|..] == kids;
  }

  lemma FlatAllHead(ns: seq<Node>)
    ensures FlatAll(ns) == [] || FlatAll(ns)[0].Begin?
  {
  }

  lemma {:induction false} AllRoundTrip(ns: seq<Node>, rest: seq<Token>)
    requires rest != [] && !rest[0].Begin?
    ensures ParseAll(FlatAll(ns) + rest) == Some((ns, |FlatAll(ns)|))
    decreases ns, 0
  {
    hide Flat, ParseNode;
    if ns != [] {
      FlatAllHead(ns);
      NodeRoundTrip(ns[0], FlatAll(ns[1..]) + rest);
      AllRoundTrip(ns[1..], rest);
      var ts := FlatAll(ns) + rest;
      assert ts == Flat(ns[0]) + (FlatAll(ns[1..]) + rest);
      assert ts[|Flat(ns[0])|..] == FlatAll(ns[1..]) + rest;
      assert ns == [ns[0]] + ns[1..];
      FlatBegins(ns[0]);
    } else {
      assert FlatAll(ns) + rest == rest;
    }
  }

  lemma FlatBegins(n: Node)
    ensures Flat(n) != [] && Flat(n)[0].Begin?
  {
  }

  lemma {:induction false} PropsSound(ts: seq<Token>)
    ensures var r := ParseProps(ts); FlatProps(r.0) == ts[..r.1]
  {
    if ts != [] && ts[0].Property? {
      PropsSound(ts[1..]);
      var r := ParseProps(ts[1..]);
      assert ([ts[0].prop] + r.0)[1..] == r.0;
      assert ts[..1 + r.1] == [ts[0]] + ts[1..][..r.1];
    }
  }

  // Whatever reads as a node is that node's token stream.
  lemma {:induction false} NodeSound(ts: seq<Token>)
    ensures var r := ParseNode(ts); r.Some? ==> Flat(r.value.0) == ts[..r.value.1]
    decreases |ts|, 0
  {
    hide FlatAll, FlatProps, ParseAll, ParseProps;
    if ParseNode(ts).Some? {
      var k := 1 + ParseProps(ts[1..]).1;
      PropsSound(ts[1..]);
      AllSound(ts[k..]);
      var used := ParseAll(ts[k..]).value.1;
      assert ts[1..][..k - 1] == ts[1..k] && ts[k..][..used] == ts[k..k + used];
      assert ts[..k + used + 1] == [ts[0]] + ts[1..k] + ts[k..k + used] + [ts[k + used]];
    }
  }

  lemma {:induction false} AllSound(ts: seq<Token>)
    ensures var r := ParseAll(ts); r.Some? ==> FlatAll(r.value.0) == ts[..r.value.1]
    decreases |ts|, 1
  {
    hide Flat, ParseNode;
    if ParseAll(ts).Some? && ts != [] && ts[0].Begin? {
      NodeSound(ts);
      var (n, used) := ParseNode(ts).value;
      AllSound(ts[used..]);
      var (ns, more) := ParseAll(ts[used..]).value;
      assert ([n] + ns)[1..] == ns;
      assert ts[..used + more] == ts[..used] + ts[used..][..more];
    }
  }

  // ---- Tokens and bytes ----

  // static_cast<uint32_t>
  function Low32(n: nat): (r: u32)
    ensures r <= n
  {
    n % U32_SPAN
  }

  lemma Low32Same(n: nat)
    ensures n < U32_SPAN <==> Low32(n) == n
  {
  }

  function U32Be(v: u32): (b: seq<byte>)
    ensures |b| == 4
  {
    [v / 0x100_0000, v / 0x1_0000 % 0x100, v / 0x100 % 0x100, v % 0x100]
  }

  function BeAt(b: seq<byte>, at: nat): u32
    requires at + 4 <= |b|
  {
    (b[at] as int) * 0x100_0000 + (b[at + 1] as int) * 0x1_0000 + (b[at + 2] as int) * 0x100 + b[at + 3]
  }

  lemma BeRoundTrip(v: u32)
    ensures BeAt(U32Be(v), 0) == v
  {
    assert v / 0x100 / 0x100 == v / 0x1_0000 && v / 0x1_0000 / 0x100 == v / 0x100_0000;
  }

  lemma BeIn(s: seq<byte>, at: nat, v: u32)
    requires at + 4 <= |s| && s[at..at + 4] == U32Be(v)
    ensures BeAt(s, at) == v
  {
    hide U32Be;
    BeRoundTrip(v);
    var t := s[at..at + 4];
    assert t[0] == s[at] && t[1] == s[at + 1] && t[2] == s[at + 2] && t[3] == s[at + 3];
  }

  // The next multiple of 4.
  function Round4(n: nat): (r: nat)
    ensures n <= r < n + 4 && r % 4 == 0
    decreases 4 - n % 4
  {
    if n % 4 == 0 then n else n + (4 - n % 4)
  }

  function Pad(b: seq<byte>): (r: seq<byte>)
    ensures |r| == Round4(|b|) && |b| <= |r| && r[..|b|] == b
  {
    b + Zeros(Round4(|b|) - |b|)
  }

  // off is the size of the strings block so far. The length of a value is a 32-bit parameter of the builder.
  function TokenBytes(t: Token, off: nat): seq<byte> {
    match t
    case Begin(name) => U32Be(1) + Pad(name + [0])
    case Property(p) => U32Be(3) + U32Be(Low32(|p.value|)) + U32Be(Low32(off)) + Pad(p.value[..Low32(|p.value|)])
    case End => U32Be(2)
  }

  function TokenStrings(t: Token): seq<byte> { if t.Property? then t.prop.name + [0] else [] }

  function Strings(ts: seq<Token>): seq<byte> {
    if ts == [] then [] else TokenStrings(ts[0]) + Strings(ts[1..])
  }

  function Encode(ts: seq<Token>, off: nat): seq<byte> {
    if ts == [] then [] else TokenBytes(ts[0], off) + Encode(ts[1..], off + |TokenStrings(ts[0])|)
  }

  lemma {:induction false} StringsAppend(ts: seq<Token>, t: Token)
    ensures Strings(ts + [t]) == Strings(ts) + TokenStrings(t)
  {
    if ts != [] {
      assert (ts + [t])[1..] == ts[1..] + [t];
      StringsAppend(ts[1..], t);
    }
  }

  lemma {:induction false} EncodeAppend(ts: seq<Token>, t: Token, off: nat)
    ensures Encode(ts + [t], off) == Encode(ts, off) + TokenBytes(t, off + |Strings(ts)|)
  {
    hide TokenBytes, TokenStrings;
    if ts == [] {
      assert ts + [t] == [t] && [t][1..] == [];
    } else {
      assert (ts + [t])[1..] == ts[1..] + [t];
      EncodeAppend(ts[1..], t, off + |TokenStrings(ts[0])|);
    }
  }

  lemma TokenAligned(t: Token, off: nat)
    ensures |TokenBytes(t, off)| % 4 == 0 && |TokenBytes(t, off)| >= 4
  {
    hide U32Be, Low32, Round4;
    match t {
      case Begin(name) => AlignedSum(4, |Pad(name + [0])|);
      case Property(p) => AlignedSum(12, |Pad(p.value[..Low32(|p.value|)])|);
      case End =>
    }
  }

  // Every token starts on a 4-byte boundary.
  lemma {:induction false} EncodeAligned(ts: seq<Token>, off: nat)
    ensures |Encode(ts, off)| % 4 == 0
  {
    if ts != [] {
      hide TokenBytes, TokenStrings;
      var rest := Encode(ts[1..], off + |TokenStrings(ts[0])|);
      TokenAligned(ts[0], off);
      EncodeAligned(ts[1..], off + |TokenStrings(ts[0])|);
      assert |Encode(ts, off)| == |TokenBytes(ts[0], off)| + |rest|;
      AlignedSum(|TokenBytes(ts[0], off)|, |rest|);
    }
  }

  lemma AlignedSum(a: nat, b: nat)
    requires a % 4 == 0 && b % 4 == 0
    ensures (a + b) % 4 == 0
  {
  }

  // ---- Sizes, told from the tree alone ----

  // What a tree takes of the structure block, and its property names of the strings block.
  datatype Size = Size(bytes: nat, text: nat)

  function Sum(a: Size, b: Size): Size { Size(a.bytes + b.bytes, a.text + b.text) }

  function PropsSize(ps: seq<Prop>): Size {
    if ps == [] then Size(0, 0) else
      Sum(Size(12 + Round4(|ps[0].value|), |ps[0].name| + 1), PropsSize(ps[1..]))
  }

  function NodeSize(n: Node): Size
    decreases n
  {
    Sum(Size(8 + Round4(|n.name| + 1), 0), Sum(PropsSize(n.props), NodesSize(n.children)))
  }

  function NodesSize(ns: seq<Node>): Size
    decreases ns
  {
    if ns == [] then Size(0, 0) else Sum(NodeSize(ns[0]), NodesSize(ns[1..]))
  }

  function TokenSize(t: Token): Size {
    match t
    case Begin(name) => Size(4 + Round4(|name| + 1), 0)
    case Property(p) => Size(12 + Round4(|p.value|), |p.name| + 1)
    case End => Size(4, 0)
  }

  function TokensSize(ts: seq<Token>): Size {
    if ts == [] then Size(0, 0) else Sum(TokenSize(ts[0]), TokensSize(ts[1..]))
  }

  lemma {:induction false} SizeConcat(a: seq<Token>, b: seq<Token>)
    ensures TokensSize(a + b) == Sum(TokensSize(a), TokensSize(b))
  {
    hide TokenSize;
    if a == [] {
      assert a + b == b;
    } else {
      assert (a + b)[1..] == a[1..] + b;
      SizeConcat(a[1..], b);
    }
  }

  lemma {:induction false} PropsSizes(ps: seq<Prop>)
    ensures TokensSize(FlatProps(ps)) == PropsSize(ps)
  {
    hide Round4;
    if ps != [] {
      PropsSizes(ps[1..]);
      assert FlatProps(ps)[1..] == FlatProps(ps[1..]);
    }
  }

  // The sizes of a tree are those of its tokens.
  lemma {:induction false} NodeSizes(n: Node)
    ensures TokensSize(Flat(n)) == NodeSize(n)
    decreases n, 1
  {
    hide FlatProps, FlatAll, PropsSize, NodesSize, Round4, TokensSize;
    PropsSizes(n.props);
    AllSizes(n.children);
    BracketSize(n.name, FlatProps(n.props), FlatAll(n.children));
  }

  lemma BracketSize(name: Text, a: seq<Token>, b: seq<Token>)
    ensures TokensSize([Begin(name)] + a + b + [End])
         == Sum(Size(8 + Round4(|name| + 1), 0), Sum(TokensSize(a), TokensSize(b)))
  {
    hide TokensSize, Round4;
    OneSize(Begin(name));
    OneSize(End);
    SizeConcat([Begin(name)], a);
    SizeConcat([Begin(name)] + a, b);
    SizeConcat([Begin(name)] + a + b, [End]);
  }

  lemma OneSize(t: Token)
    ensures TokensSize([t]) == TokenSize(t)
  {
    hide TokenSize;
    assert [t][1..] == [];
  }

  lemma {:induction false} AllSizes(ns: seq<Node>)
    ensures TokensSize(FlatAll(ns)) == NodesSize(ns)
    decreases ns, 0
  {
    hide Flat, NodeSize;
    if ns != [] {
      NodeSizes(ns[0]);
      AllSizes(ns[1..]);
      SizeConcat(Flat(ns[0]), FlatAll(ns[1..]));
    }
  }

  lemma TokenLength(t: Token, off: nat)
    ensures (t.Property? ==> |t.prop.value| < U32_SPAN) ==> |TokenBytes(t, off)| == TokenSize(t).bytes
    ensures |TokenStrings(t)| == TokenSize(t).text
    ensures t.Property? ==> |t.prop.value| <= TokenSize(t).bytes
  {
    hide U32Be, Round4, Low32;
    if t.Property? { Low32Same(|t.prop.value|); }
  }

  // Every value's length fits in 32 bits if the size of the structure block does.
  lemma {:induction false} SmallFits(ts: seq<Token>)
    requires TokensSize(ts).bytes < U32_SPAN
    ensures Fits(ts)
  {
    if ts != [] {
      hide TokenSize, Fits;
      TokenLength(ts[0], 0);
      SmallFits(ts[1..]);
      FitsFirst(ts);
    }
  }

  // Then the blocks of a token stream have these sizes.
  lemma {:induction false} EncodeSize(ts: seq<Token>, off: nat)
    requires Fits(ts)
    ensures |Encode(ts, off)| == TokensSize(ts).bytes
  {
    hide *;
    SizeStep(ts, off);
    if ts != [] {
      FitsFirst(ts);
      TokenLength(ts[0], off);
      EncodeSize(ts[1..], off + |TokenStrings(ts[0])|);
    }
  }

  lemma SizeStep(ts: seq<Token>, off: nat)
    ensures ts == [] ==> |Encode(ts, off)| == TokensSize(ts).bytes
    ensures ts != [] ==>
      && |Encode(ts, off)| == |TokenBytes(ts[0], off)| + |Encode(ts[1..], off + |TokenStrings(ts[0])|)|
      && TokensSize(ts).bytes == TokenSize(ts[0]).bytes + TokensSize(ts[1..]).bytes
  {
    hide TokenBytes, TokenStrings, TokenSize;
  }

  lemma {:induction false} StringsSize(ts: seq<Token>)
    ensures |Strings(ts)| == TokensSize(ts).text
  {
    if ts != [] {
      hide TokenBytes, TokenStrings, TokenSize;
      TokenLength(ts[0], 0);
      StringsSize(ts[1..]);
    }
  }

  lemma FitsFirst(ts: seq<Token>)
    requires ts != []
    ensures Fits(ts) <==> Fits(ts[1..]) && (ts[0].Property? ==> |ts[0].prop.value| < U32_SPAN)
  {
    assert ts == [ts[0]] + ts[1..];
    assert ts[0] in ts;
  }

  // ---- The reader ----

  function TextLength(s: seq<byte>): (k: nat)
    ensures k <= |s| && 0 !in s[..k] && (k < |s| ==> s[k] == 0)
  {
    if s == [] || s[0] == 0 then 0 else
      assert s[..1 + TextLength(s[1..])] == [s[0]] + s[1..][..TextLength(s[1..])];
      1 + TextLength(s[1..])
  }

  // The NUL-terminated text at the front of s.
  function ReadText(s: seq<byte>): Option<Text> {
    var k := TextLength(s);
    if k == |s| then None else Some(s[..k])
  }

  // The token at the front of s, and the bytes it takes.
  function LexToken(s: seq<byte>, strings: seq<byte>): (r: Option<(Token, nat)>)
    ensures r.Some? ==> 0 < r.value.1 <= |s|
  {
    if |s| < 4 then None
    else if BeAt(s, 0) == 1 then
      match ReadText(s[4..])
      case None => None
      case Some(name) => if 4 + Round4(|name| + 1) <= |s| then Some((Begin(name), 4 + Round4(|name| + 1))) else None
    else if BeAt(s, 0) == 2 then Some((End, 4))
    else if BeAt(s, 0) == 3 && |s| >= 12 then
      var len, off := BeAt(s, 4), BeAt(s, 8);
      if 12 + Round4(len) > |s| || off > |strings| then None else
        match ReadText(strings[off..])
        case None => None
        case Some(name) => Some((Property(Prop(name, s[12..12 + len])), 12 + Round4(len)))
    else None
  }

  // The tokens of a structure block, up to the FDT_END that must close it.
  function Lex(s: seq<byte>, strings: seq<byte>): Option<seq<Token>> {
    if |s| == 4 && BeAt(s, 0) == 9 then Some([]) else
      match LexToken(s, strings)
      case None => None
      case Some((t, used)) =>
        match Lex(s[used..], strings)
        case None => None
        case Some(ts) => Some([t] + ts)
  }

  lemma ReadTextAt(name: Text, rest: seq<byte>)
    ensures ReadText(name + [0] + rest) == Some(name)
  {
    var s := name + [0] + rest;
    var k := TextLength(s);
    assert s[|name|] == 0;
    forall i | 0 <= i < |name| ensures s[i] != 0 { assert name[i] in name; }
    forall i | 0 <= i < k ensures s[i] != 0 { assert s[i] in s[..k]; }
    assert s[..|name|] == name;
  }

  lemma BeginRoundTrip(name: Text, off: nat, rest: seq<byte>, strings: seq<byte>)
    ensures LexToken(TokenBytes(Begin(name), off) + rest, strings) == Some((Begin(name), |TokenBytes(Begin(name), off)|))
  {
    hide U32Be, ReadText, Round4;
    var s := TokenBytes(Begin(name), off) + rest;
    BeIn(s, 0, 1);
    var fill := Zeros(Round4(|name| + 1) - |name + [0]|);
    assert s[4..] == name + [0] + (fill + rest);
    ReadTextAt(name, fill + rest);
  }

  lemma EndRoundTrip(off: nat, rest: seq<byte>, strings: seq<byte>)
    ensures LexToken(TokenBytes(End, off) + rest, strings) == Some((End, 4))
  {
    hide U32Be;
    BeIn(TokenBytes(End, off) + rest, 0, 2);
  }

  lemma PropertyRoundTrip(p: Prop, off: nat, rest: seq<byte>, strings: seq<byte>)
    requires |p.value| < U32_SPAN && off + |p.name| + 1 <= |strings| < U32_SPAN
    requires strings[off..off + |p.name| + 1] == p.name + [0]
    ensures LexToken(TokenBytes(Property(p), off) + rest, strings) == Some((Property(p), |TokenBytes(Property(p), off)|))
  {
    hide U32Be, ReadText, Round4, Low32;
    Low32Same(|p.value|);
    Low32Same(off);
    var s := TokenBytes(Property(p), off) + rest;
    BeIn(s, 0, 3);
    BeIn(s, 4, Low32(|p.value|));
    BeIn(s, 8, Low32(off));
    assert p.value[..|p.value|] == p.value;
    assert s[12..12 + |p.value|] == Pad(p.value)[..|p.value|];
    assert strings[off..] == p.name + [0] + strings[off + |p.name| + 1..];
    ReadTextAt(p.name, strings[off + |p.name| + 1..]);
  }

  predicate Fits(ts: seq<Token>) { forall t :: t in ts && t.Property? ==> |t.prop.value| < U32_SPAN }

  lemma SliceParts(s: seq<byte>, off: nat, a: seq<byte>, b: seq<byte>)
    requires off + |a + b| <= |s| && s[off..off + |a + b|] == a + b
    ensures s[off..off + |a|] == a && s[off + |a|..off + |a| + |b|] == b
  {
    var here := s[off..off + |a + b|];
    assert forall i :: 0 <= i < |a| ==> s[off + i] == here[i] == a[i];
    assert forall i :: 0 <= i < |b| ==> s[off + |a| + i] == here[|a| + i] == b[i];
  }

  // A structure block reads back as its tokens, each property name found through its offset.
  lemma {:induction false} LexRoundTrip(ts: seq<Token>, off: nat, strings: seq<byte>)
    requires Fits(ts) && off + |Strings(ts)| <= |strings| < U32_SPAN
    requires strings[off..off + |Strings(ts)|] == Strings(ts)
    ensures Lex(Encode(ts, off) + U32Be(9), strings) == Some(ts)
  {
    hide U32Be, LexToken, TokenBytes, TokenStrings;
    if ts == [] {
      assert Encode(ts, off) + U32Be(9) == U32Be(9);
      BeIn(U32Be(9), 0, 9);
    } else {
      var t := ts[0];
      var k := |TokenStrings(t)|;
      var tail := Encode(ts[1..], off + k) + U32Be(9);
      var s := Encode(ts, off) + U32Be(9);
      assert s == TokenBytes(t, off) + tail;
      assert Strings(ts) == TokenStrings(t) + Strings(ts[1..]);
      SliceParts(strings, off, TokenStrings(t), Strings(ts[1..]));
      TokenAligned(t, off);
      TokenRoundTrip(t, off, tail, strings);
      LexRoundTrip(ts[1..], off + k, strings);
      assert s[|TokenBytes(t, off)|..] == tail;
      assert ts == [t] + ts[1..];
    }
  }

  lemma TokenRoundTrip(t: Token, off: nat, rest: seq<byte>, strings: seq<byte>)
    requires t.Property? ==> |t.prop.value| < U32_SPAN
    requires off + |TokenStrings(t)| <= |strings| < U32_SPAN
    requires strings[off..off + |TokenStrings(t)|] == TokenStrings(t)
    ensures LexToken(TokenBytes(t, off) + rest, strings) == Some((t, |TokenBytes(t, off)|))
  {
    hide LexToken, TokenBytes;
    match t {
      case Begin(name) => BeginRoundTrip(name, off, rest, strings);
      case Property(p) => PropertyRoundTrip(p, off, rest, strings);
      case End => EndRoundTrip(off, rest, strings); EndSize(off);
    }
  }

  lemma EndSize(off: nat)
    ensures |TokenBytes(End, off)| == 4
  {
  }

  lemma {:induction false} LexFits(s: seq<byte>, strings: seq<byte>)
    requires Lex(s, strings).Some?
    ensures Fits(Lex(s, strings).value)
  {
    if !(|s| == 4 && BeAt(s, 0) == 9) {
      hide BeAt, Round4, ReadText;
      var (t, used) := LexToken(s, strings).value;
      LexFits(s[used..], strings);
    }
  }
}
