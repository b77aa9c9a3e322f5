// The KVM back end's ACPI Machine Language encoders (native/kvm/backend.cc:1027-1219; ACPI 6.5, sections
// 20.2.2 to 20.2.4) and a decoder for the language they produce.
module Aml {
  import opened Bytes

  const ROOT: byte := 0x5C  // backslash
  const DOT: byte := 0x2E
  const DUAL: byte := 0x2E
  const MULTI: byte := 0x2F

  // ---- Package lengths ----

  // PkgLength can state up to 28 bits, its own bytes included.
  const PKG_LIMIT: nat := 0x1000_0000 - 4

  function PkgWidth(payload: nat): (w: nat)
    ensures 1 <= w <= 4
  {
    if payload >= 0x10_0000 - 3 then 4 else if payload >= 0x1000 - 2 then 3 else if payload >= 0x40 - 1 then 2 else 1
  }

  // AppendPkgLength with include_self, as every caller passes it.
  function PkgBytes(payload: nat): (b: seq<byte>)
    ensures |b| == PkgWidth(payload)
  {
    var n := payload + PkgWidth(payload);
    match PkgWidth(payload)
    case 1 => [n % 0x100]
    case 2 => [0x40 + n % 0x10, n / 0x10 % 0x100]
    case 3 => [0x80 + n % 0x10, n / 0x10 % 0x100, n / 0x1000 % 0x100]
    case _ => [0xC0 + n % 0x10, n / 0x10 % 0x100, n / 0x1000 % 0x100, n / 0x10_0000 % 0x100]
  }

  // The total length stated at the front of s and the bytes that state it.
  function DecodePkg(s: seq<byte>): Option<(nat, nat)> {
    if s == [] then None else
      var b := seq(|s|, i requires 0 <= i < |s| => s[i] as int);
      if b[0] < 0x40 then Some((b[0], 1))
      else if b[0] < 0x80 then if |s| < 2 then None else Some((b[0] % 0x10 + 0x10 * b[1], 2))
      else if b[0] < 0xC0 then if |s| < 3 then None else Some((b[0] % 0x10 + 0x10 * b[1] + 0x1000 * b[2], 3))
      else if |s| < 4 then None else Some((b[0] % 0x10 + 0x10 * b[1] + 0x1000 * b[2] + 0x10_0000 * b[3], 4))
  }

  lemma Digits2(n: nat)
    requires n < 0x1000
    ensures n / 0x10 % 0x100 == n / 0x10 && n % 0x10 + 0x10 * (n / 0x10) == n
  {
  }

  lemma Digits3(n: nat)
    requires n < 0x10_0000
    ensures n / 0x1000 % 0x100 == n / 0x1000
    ensures n % 0x10 + 0x10 * (n / 0x10 % 0x100) + 0x1000 * (n / 0x1000) == n
  {
    assert n / 0x10 / 0x100 == n / 0x1000;
  }

  lemma Digits4(n: nat)
    ensures n % 0x10 + 0x10 * (n / 0x10 % 0x100) + 0x1000 * (n / 0x1000 % 0x100)
            + 0x10_0000 * (n / 0x10_0000 % 0x100) == n % 0x1000_0000
  {
    assert n / 0x10 / 0x100 == n / 0x1000;
    assert n / 0x1000 / 0x100 == n / 0x10_0000;
    assert n / 0x10_0000 / 0x100 == n / 0x1000_0000;
  }

  lemma PkgLong(payload: nat, rest: seq<byte>)
    requires PkgWidth(payload) >= 4
    ensures DecodePkg(PkgBytes(payload) + rest) == Some(((payload + 4) % 0x1000_0000, 4))
  {
    var n := payload + 4;
    Digits4(n);
    var s := PkgBytes(payload) + rest;
    assert s[0] == 0xC0 + n % 0x10 && s[1] == n / 0x10 % 0x100 && s[2] == n / 0x1000 % 0x100
        && s[3] == n / 0x10_0000 % 0x100;
    assert s[0] as int % 0x10 == n % 0x10;
  }

  lemma PkgTwo(payload: nat, rest: seq<byte>)
    requires PkgWidth(payload) == 2
    ensures DecodePkg(PkgBytes(payload) + rest) == Some((payload + 2, 2))
  {
    var n := payload + 2;
    Digits2(n);
    var s := PkgBytes(payload) + rest;
    assert s[0] == 0x40 + n % 0x10 && s[1] == n / 0x10;
    assert s[0] as int % 0x10 == n % 0x10;
  }

  lemma PkgThree(payload: nat, rest: seq<byte>)
    requires PkgWidth(payload) == 3
    ensures DecodePkg(PkgBytes(payload) + rest) == Some((payload + 3, 3))
  {
    var n := payload + 3;
    Digits3(n);
    var s := PkgBytes(payload) + rest;
    assert s[0] == 0x80 + n % 0x10 && s[1] == n / 0x10 % 0x100 && s[2] == n / 0x1000;
    assert s[0] as int % 0x10 == n % 0x10;
  }

  lemma PkgOne(payload: nat, rest: seq<byte>)
    requires PkgWidth(payload) == 1
    ensures DecodePkg(PkgBytes(payload) + rest) == Some((payload + 1, 1))
  {
    assert (PkgBytes(payload) + rest)[0] == payload + 1;
  }

  // A package length reads back as payload plus its own width exactly when the payload is below 2^28 - 4.
  lemma PkgIff(payload: nat, rest: seq<byte>)
    ensures DecodePkg(PkgBytes(payload) + rest) == Some((payload + PkgWidth(payload), PkgWidth(payload)))
            <==> payload < PKG_LIMIT
  {
    hide PkgBytes, DecodePkg;
    match PkgWidth(payload) {
      case 1 => PkgOne(payload, rest);
      case 2 => PkgTwo(payload, rest);
      case 3 => PkgThree(payload, rest);
      case _ => PkgLong(payload, rest);
    }
  }

  // Of the widths that can state the length, the shortest is used: six bits in one byte, else four and eight more
  // for each byte behind the first.
  lemma PkgShortest(payload: nat)
    ensures var w := PkgWidth(payload);
            && (w == 1 <==> payload + 1 < 0x40)
            && (w == 2 <==> payload + 1 >= 0x40 && payload + 2 < 0x1000)
            && (w == 3 <==> payload + 2 >= 0x1000 && payload + 3 < 0x10_0000)
  {
  }

  function Pack(body: seq<byte>): seq<byte> { PkgBytes(|body|) + body }

  function DecodePack(s: seq<byte>): (r: Option<(seq<byte>, nat)>)
    ensures r.Some? ==> |r.value.0| < r.value.1 <= |s|
  {
    match DecodePkg(s)
    case None => None
    case Some((len, width)) => if width <= len <= |s| then Some((s[width..len], len)) else None
  }

  lemma PackRoundTrip(body: seq<byte>, rest: seq<byte>)
    requires |body| < PKG_LIMIT
    ensures DecodePack(Pack(body) + rest) == Some((body, |Pack(body)|))
  {
    hide PkgBytes, DecodePkg;
    PkgIff(|body|, body + rest);
    assert Pack(body) + rest == PkgBytes(|body|) + (body + rest);
  }

  // ---- Names ----

  datatype Name = Name(root: bool, parts: seq<seq<byte>>)

  function FindDot(s: seq<byte>, start: nat): (k: nat)
    requires start <= |s|
    ensures start <= k <= |s| && (forall i :: start <= i < k ==> s[i] != DOT) && (k < |s| ==> s[k] == DOT)
    decreases |s| - start
  {
    if start == |s| || s[start] == DOT then start else FindDot(s, start + 1)
  }

  // The parts of s from start on, between dots.
  function Split(s: seq<byte>, start: nat): (parts: seq<seq<byte>>)
    requires start <= |s|
    ensures parts != []
    decreases |s| - start
  {
    var k := FindDot(s, start);
    [s[start..k]] + if k == |s| then [] else Split(s, k + 1)
  }

  function Join(parts: seq<seq<byte>>): seq<byte>
    requires parts != []
  {
    if |parts| == 1 then parts[0] else parts[0] + [DOT] + Join(parts[1..])
  }

  lemma JoinCons(part: seq<byte>, parts: seq<seq<byte>>)
    requires parts != []
    ensures Join([part] + parts) == part + [DOT] + Join(parts)
  {
    assert ([part] + parts)[1..] == parts;
  }

  lemma SplitNext(s: seq<byte>, start: nat)
    requires start <= |s|
    ensures var k := FindDot(s, start);
            Split(s, start) == [s[start..k]] + if k == |s| then [] else Split(s, k + 1)
  {
  }

  lemma {:induction false} SplitJoin(s: seq<byte>, start: nat)
    requires start <= |s|
    ensures Join(Split(s, start)) == s[start..]
    decreases |s| - start
  {
    hide Split, FindDot;
    SplitNext(s, start);
    var k := FindDot(s, start);
    if k < |s| {
      hide Join;
      SplitJoin(s, k + 1);
      JoinCons(s[start..k], Split(s, k + 1));
      SliceAround(s, start, k);
    } else {
      assert Split(s, start) == [s[start..k]];
    }
  }

  lemma SliceAround(s: seq<byte>, start: nat, k: nat)
    requires start <= k < |s| && s[k] == DOT
    ensures s[start..k] + [DOT] + s[k + 1..] == s[start..]
  {
  }

  lemma {:induction false} SplitDotless(s: seq<byte>, start: nat)
    requires start <= |s|
    ensures forall i :: 0 <= i < |Split(s, start)| ==> DOT !in Split(s, start)[i]
    decreases |s| - start
  {
    var k := FindDot(s, start);
    if k < |s| { SplitDotless(s, k + 1); }
  }

  predicate AllFour(parts: seq<seq<byte>>) { forall i :: 0 <= i < |parts| ==> |parts[i]| == 4 }

  // The name that a path denotes; None where the source throws.
  function NameOf(path: seq<byte>): Option<Name> {
    var root := path != [] && path[0] == ROOT;
    var parts := Split(if root then path[1..] else path, 0);
    if AllFour(parts) then Some(Name(root, parts)) else None
  }

  function PathOf(name: Name): seq<byte>
    requires name.parts != []
  {
    (if name.root then [ROOT] else []) + Join(name.parts)
  }

  lemma NamePath(path: seq<byte>)
    requires NameOf(path).Some?
    ensures NameOf(path).value.parts != [] && PathOf(NameOf(path).value) == path
    ensures Proper(NameOf(path).value)
  {
    var root := path != [] && path[0] == ROOT;
    SplitJoin(if root then path[1..] else path, 0);
    SplitDotless(if root then path[1..] else path, 0);
    var parts := NameOf(path).value.parts;
    assert parts[0][0] in parts[0];
    if !root {
      assert Join(parts) == path;
      assert parts[0][0] == path[0];
    }
  }

  // What the split of a path gives: parts of four bytes, no dots, and no root prefix taken for a part.
  predicate Proper(name: Name) {
    && name.parts != [] && AllFour(name.parts)
    && name.parts[0][0] != DOT && (!name.root ==> name.parts[0][0] != ROOT)
  }

  function Concat(parts: seq<seq<byte>>): seq<byte> {
    if parts == [] then [] else parts[0] + Concat(parts[1..])
  }

  function Prefix(parts: nat): seq<byte> {
    if parts == 2 then [DUAL] else if parts > 2 then [MULTI, parts % 0x100] else []
  }

  function NameBytes(name: Name): seq<byte> {
    (if name.root then [ROOT] else []) + Prefix(|name.parts|) + Concat(name.parts)
  }

  // s cut into parts of four bytes.
  function Cut(s: seq<byte>, n: nat): (parts: seq<seq<byte>>)
    requires |s| >= 4 * n
    ensures |parts| == n
  {
    if n == 0 then [] else [s[..4]] + Cut(s[4..], n - 1)
  }

  function DecodeParts(s: seq<byte>, n: nat): Option<(seq<seq<byte>>, nat)> {
    if |s| < 4 * n then None else Some((Cut(s, n), 4 * n))
  }

  // A NameString with its prefix byte already looked at: s starts at the prefix or at the first part.
  function DecodeSegs(s: seq<byte>): (r: Option<(seq<seq<byte>>, nat)>)
    ensures r.Some? ==> 0 < r.value.1 <= |s|
  {
    if s == [] then None
    else if s[0] == DUAL then Shift(DecodeParts(s[1..], 2), 1)
    else if s[0] == MULTI then if |s| < 2 then None else Shift(DecodeParts(s[2..], s[1]), 2)
    else DecodeParts(s, 1)
  }

  function Shift<T>(r: Option<(T, nat)>, off: nat): Option<(T, nat)> {
    if r.Some? then Some((r.value.0, r.value.1 + off)) else None
  }

  function DecodeName(s: seq<byte>): (r: Option<(Name, nat)>)
    ensures r.Some? ==> 0 < r.value.1 <= |s|
  {
    var root := s != [] && s[0] == ROOT;
    match DecodeSegs(if root then s[1..] else s)
    case None => None
    case Some((parts, used)) => Some((Name(root, parts), used + if root then 1 else 0))
  }

  // The count byte holds at most 255, and a lone part must not look like a MultiNamePrefix.
  predicate Decodable(name: Name)
    requires Proper(name)
  {
    |name.parts| <= 255 && !(|name.parts| == 1 && name.parts[0][0] == MULTI)
  }

  lemma {:induction false} CutConcat(parts: seq<seq<byte>>, rest: seq<byte>)
    requires AllFour(parts)
    ensures |Concat(parts)| == 4 * |parts| && Cut(Concat(parts) + rest, |parts|) == parts
  {
    if parts != [] {
      CutConcat(parts[1..], rest);
      assert (Concat(parts) + rest)[..4] == parts[0];
      assert (Concat(parts) + rest)[4..] == Concat(parts[1..]) + rest;
    }
  }

  lemma SegsIff(name: Name, rest: seq<byte>)
    requires Proper(name)
    ensures var s := Prefix(|name.parts|) + Concat(name.parts);
            DecodeSegs(s + rest) == Some((name.parts, |s|)) <==> Decodable(name)
  {
    var n := |name.parts|;
    var body := Concat(name.parts);
    CutConcat(name.parts, rest);
    hide Cut, Concat;
    var s := Prefix(n) + body + rest;
    if n == 1 {
      OnePart(name);
      assert s == body + rest;
    } else if n == 2 {
      assert s[1..] == body + rest;
    } else {
      assert s[2..] == body + rest;
      if n > 255 && DecodeSegs(s).Some? { assert |DecodeSegs(s).value.0| == n % 0x100; }
    }
  }

  lemma OnePart(name: Name)
    requires Proper(name) && |name.parts| == 1
    ensures Concat(name.parts)[0] == name.parts[0][0]
  {
  }

  // A name reads back exactly when it has at most 255 parts and is not a lone part starting with '/'.
  lemma NameIff(name: Name, rest: seq<byte>)
    requires Proper(name)
    ensures DecodeName(NameBytes(name) + rest) == Some((name, |NameBytes(name)|)) <==> Decodable(name)
  {
    hide DecodeSegs, Decodable;
    SegsIff(name, rest);
    CutConcat(name.parts, []);
    var s := Prefix(|name.parts|) + Concat(name.parts);
    if name.root {
      assert (NameBytes(name) + rest)[1..] == s + rest;
    } else {
      assert NameBytes(name) + rest == s + rest;
      assert s[0] == if |name.parts| == 1 then name.parts[0][0] else if |name.parts| == 2 then DUAL else MULTI;
    }
  }

  lemma NextPart(name: seq<byte>, start: nat, parts: seq<seq<byte>>)
    requires start <= |name| && parts + Split(name, start) == Split(name, 0)
    ensures var k := FindDot(name, start);
      && (k < |name| ==> parts + [name[start..k]] + Split(name, k + 1) == Split(name, 0))
      && (k == |name| ==> parts + [name[start..k]] == Split(name, 0))
  {
    hide Split, FindDot;
    SplitNext(name, start);
  }

  lemma BadPart(name: seq<byte>, start: nat, parts: seq<seq<byte>>)
    requires start <= |name| && parts + Split(name, start) == Split(name, 0)
    requires |name[start..FindDot(name, start)]| != 4
    ensures !AllFour(Split(name, 0))
  {
    var k := FindDot(name, start);
    assert Split(name, start)[0] == name[start..k];
    hide Split, FindDot;
    assert Split(name, 0)[|parts|] == Split(name, start)[0];
  }

  // EncodePath's loop: the parts of the path between dots, or an error at the first that is not four long.
  method SplitPath(name: seq<byte>) returns (r: Result<seq<seq<byte>>>)
    ensures r.Ok? <==> AllFour(Split(name, 0))
    ensures r.Ok? ==> r.value == Split(name, 0)
  {
    hide Split;
    var parts: seq<seq<byte>> := [];
    var start := 0;
    while true
      invariant start <= |name| && AllFour(parts)
      invariant parts + Split(name, start) == Split(name, 0)
      decreases |name| - start
    {
      var dot := FindDot(name, start);
      var part := name[start..dot];
      NextPart(name, start, parts);
      if |part| != 4 {
        BadPart(name, start, parts);
        return Err("AML path part must be four characters");
      }
      parts := parts + [part];
      if dot == |name| { return Ok(parts); }
      start := dot + 1;
    }
  }

  method EncodePath(path: seq<byte>) returns (r: Result<seq<byte>>)
    ensures r.Ok? <==> NameOf(path).Some?
    ensures r.Ok? ==> r.value == NameBytes(NameOf(path).value)
  {
    hide Split;
    ghost var root: seq<byte> := if path != [] && path[0] == ROOT then [ROOT] else [];
    var out: seq<byte> := [];
    var name := path;
    if name != [] && name[0] == ROOT {
      out := out + [ROOT];
      name := name[1..];
    }
    var parts :- SplitPath(name);
    if |parts| == 2 {
      out := out + [DUAL];
    } else if |parts| > 2 {
      out := out + [MULTI, |parts| % 0x100];
    }
    ghost var head := out;
    assert head == root + Prefix(|parts|);
    for i := 0 to |parts|
      invariant out + Concat(parts[i..]) == head + Concat(parts)
    {
      out := out + parts[i];
    }
    assert parts[|parts|..] == [];
    return Ok(out);
  }

  // ---- Values ----

  // A byte vector whose size fits the source's size_t.
  type Blob = b: seq<byte> | |b| < U64_SPAN witness []

  datatype Value = Int(v: u64) | Str(text: seq<byte>) | Buf(data: Blob)

  // EncodeInteger
  function IntBytes(v: u64): (b: seq<byte>)
    ensures 1 <= |b| <= 9
  {
    if v == 0 then [0x00] else if v == 1 then [0x01]
    else if v <= 0xFF then [0x0A, v]
    else if v <= 0xFFFF then [0x0B] + Le16(v)
    else if v <= 0xFFFF_FFFF then [0x0C] + Le32(v)
    else [0x0E] + Le64(v)
  }

  function DecodeInt(s: seq<byte>): (r: Option<(u64, nat)>)
    ensures r.Some? ==> 0 < r.value.1 <= |s|
  {
    if s == [] then None
    else if s[0] <= 1 then Some((s[0], 1))
    else if s[0] == 0x0A then if |s| < 2 then None else Some((s[1], 2))
    else if s[0] == 0x0B then if |s| < 3 then None else Some((U16At(s[1..3], 0), 3))
    else if s[0] == 0x0C then if |s| < 5 then None else Some((U32At(s[1..5], 0), 5))
    else if s[0] == 0x0E then if |s| < 9 then None else Some((U64At(s[1..9], 0), 9))
    else None
  }

  lemma IntRoundTrip(v: u64, rest: seq<byte>)
    ensures DecodeInt(IntBytes(v) + rest) == Some((v, |IntBytes(v)|))
  {
    hide Le16, Le32, Le64, U16At, U32At, U64At;
    var s := IntBytes(v) + rest;
    if 0xFF < v {
      if v <= 0xFFFF { assert s[1..3] == Le16(v); }
      else if v <= 0xFFFF_FFFF { assert s[1..5] == Le32(v); }
      else { assert s[1..9] == Le64(v); }
    }
  }

  // The shortest form: no byte for 0 and 1, then 1, 2, 4 and 8 bytes behind the prefix.
  lemma IntShortest(v: u64)
    ensures |IntBytes(v)| == if v <= 1 then 1 else if v < 0x100 then 2 else if v < 0x1_0000 then 3
                             else if v < 0x1_0000_0000 then 5 else 9
  {
  }

  // EncodeString
  function StrBytes(text: seq<byte>): seq<byte> { [0x0D] + text + [0] }

  function FindZero(s: seq<byte>): (k: nat)
    ensures k <= |s| && (forall i :: 0 <= i < k ==> s[i] != 0) && (k < |s| ==> s[k] == 0)
  {
    if s == [] || s[0] == 0 then 0 else 1 + FindZero(s[1..])
  }

  function DecodeStr(s: seq<byte>): (r: Option<(seq<byte>, nat)>)
    ensures r.Some? ==> 0 < r.value.1 <= |s|
  {
    if s == [] || s[0] != 0x0D then None else
      var k := FindZero(s[1..]);
      if k == |s| - 1 then None else Some((s[1..1 + k], k + 2))
  }

  // A string reads back exactly when it has no NUL in it.
  lemma StrIff(text: seq<byte>, rest: seq<byte>)
    ensures DecodeStr(StrBytes(text) + rest) == Some((text, |StrBytes(text)|)) <==> 0 !in text
  {
    var s, t := StrBytes(text) + rest, text + [0] + rest;
    assert s[1..] == t;
    var k := FindZero(t);
    assert t[|text|] == 0;
    assert forall i :: 0 <= i < |text| ==> t[i] == text[i];
    assert k == |text| ==> s[1..1 + k] == text && forall i :: 0 <= i < k ==> t[i] != 0;
  }

  // BuildResourceTemplate: a buffer states its size as an integer and then holds its bytes.
  function BufBytes(data: Blob): seq<byte> { [0x11] + Pack(IntBytes(|data|) + data) }

  function DecodeBuf(s: seq<byte>): (r: Option<(seq<byte>, nat)>)
    ensures r.Some? ==> 0 < r.value.1 <= |s|
  {
    if s == [] || s[0] != 0x11 then None else
      match DecodePack(s[1..])
      case None => None
      case Some((body, used)) =>
        match DecodeInt(body)
        case None => None
        case Some((size, k)) => if |body| - k == size then Some((body[k..], used + 1)) else None
  }

  lemma BufRoundTrip(data: Blob, rest: seq<byte>)
    requires |IntBytes(|data|) + data| < PKG_LIMIT
    ensures DecodeBuf(BufBytes(data) + rest) == Some((data, |BufBytes(data)|))
  {
    hide IntBytes, DecodeInt, Pack, DecodePack;
    var body := IntBytes(|data|) + data;
    IntRoundTrip(|data|, data);
    PackRoundTrip(body, rest);
    assert (BufBytes(data) + rest)[1..] == Pack(body) + rest;
    assert body[|IntBytes(|data|)|..] == data;
  }

  function ValueBytes(v: Value): seq<byte> {
    match v case Int(n) => IntBytes(n) case Str(text) => StrBytes(text) case Buf(data) => BufBytes(data)
  }

  function DecodeValue(s: seq<byte>): (r: Option<(Value, nat)>)
    ensures r.Some? ==> 0 < r.value.1 <= |s|
  {
    if s == [] then None
    else if s[0] == 0x0D then (match DecodeStr(s) case None => None case Some((t, k)) => Some((Str(t), k)))
    else if s[0] == 0x11 then
      match DecodeBuf(s)
      case None => None
      case Some((d, k)) => if |d| < U64_SPAN then Some((Buf(d), k)) else None
    else match DecodeInt(s) case None => None case Some((n, k)) => Some((Int(n), k))
  }

  predicate Sound(v: Value) {
    match v
    case Int(_) => true
    case Str(text) => 0 !in text
    case Buf(data) => |IntBytes(|data|) + data| < PKG_LIMIT
  }

  lemma ValueRoundTrip(v: Value, rest: seq<byte>)
    requires Sound(v)
    ensures DecodeValue(ValueBytes(v) + rest) == Some((v, |ValueBytes(v)|))
  {
    hide DecodeInt, DecodeStr, DecodeBuf, BufBytes;
    match v {
      case Int(n) => IntRoundTrip(n, rest);
      case Str(text) => StrIff(text, rest);
      case Buf(data) => BufRoundTrip(data, rest); BufHead(data, rest);
    }
  }

  lemma BufHead(data: Blob, rest: seq<byte>)
    ensures (BufBytes(data) + rest)[..1] == [0x11]
  {
  }

  // ---- Terms ----

  datatype Term =
    | NameDecl(path: seq<byte>, value: Value)
    | Device(path: seq<byte>, children: seq<Term>)
    | Scope(path: seq<byte>, children: seq<Term>)

  function PathBytes(path: seq<byte>): seq<byte> {
    match NameOf(path) case Some(name) => NameBytes(name) case None => []
  }

  // AppendName, AppendDevice and AppendScope, for paths that EncodePath accepts.
  function TermBytes(t: Term): seq<byte>
    decreases t
  {
    match t
    case NameDecl(path, value) => [0x08] + PathBytes(path) + ValueBytes(value)
    case Device(path, children) => [0x5B, 0x82] + Pack(PathBytes(path) + TermsBytes(children))
    case Scope(path, children) => [0x10] + Pack(PathBytes(path) + TermsBytes(children))
  }

  function TermsBytes(ts: seq<Term>): seq<byte>
    decreases ts
  {
    if ts == [] then [] else TermBytes(ts[0]) + TermsBytes(ts[1..])
  }

  // Where the byte string of a term determines the term.
  predicate Readable(t: Term)
    decreases t
  {
    && ReadablePath(t.path)
    && match t
       case NameDecl(_, value) => Sound(value)
       case Device(path, children) => |PathBytes(path) + TermsBytes(children)| < PKG_LIMIT && AllReadable(children)
       case Scope(path, children) => |PathBytes(path) + TermsBytes(children)| < PKG_LIMIT && AllReadable(children)
  }

  predicate AllReadable(ts: seq<Term>)
    decreases ts
  {
    ts == [] || (Readable(ts[0]) && AllReadable(ts[1..]))
  }

  predicate ReadablePath(path: seq<byte>) {
    NameOf(path).Some? && (NamePath(path); Decodable(NameOf(path).value))
  }

  // A path at the front of s; a decoded name with no parts has no path.
  function DecodePath(s: seq<byte>): (r: Option<(seq<byte>, nat)>)
    ensures r.Some? ==> 0 < r.value.1 <= |s|
  {
    match DecodeName(s)
    case None => None
    case Some((name, used)) => if name.parts == [] then None else Some((PathOf(name), used))
  }

  lemma PathRoundTrip(path: seq<byte>, rest: seq<byte>)
    requires ReadablePath(path)
    ensures DecodePath(PathBytes(path) + rest) == Some((path, |PathBytes(path)|))
  {
    hide DecodeName, NameBytes, NameOf, PathOf, Decodable;
    NamePath(path);
    NameIff(NameOf(path).value, rest);
  }

  // The term at the front of s, with the bytes it takes.
  function DecodeTerm(s: seq<byte>): (r: Option<(Term, nat)>)
    ensures r.Some? ==> 0 < r.value.1 <= |s|
    decreases |s|, 0
  {
    if s == [] then None
    else if s[0] == 0x08 then
      match DecodePath(s[1..])
      case None => None
      case Some((path, used)) =>
        (match DecodeValue(s[1 + used..])
         case None => None
         case Some((value, k)) => Some((NameDecl(path, value), 1 + used + k)))
    else if s[0] == 0x10 then
      match DecodeBody(s, 1)
      case None => None
      case Some((path, children, used)) => Some((Scope(path, children), used))
    else if s[0] == 0x5B && |s| > 1 && s[1] == 0x82 then
      match DecodeBody(s, 2)
      case None => None
      case Some((path, children, used)) => Some((Device(path, children), used))
    else None
  }

  // A package from position off: a path, then terms to its end.
  function DecodeBody(s: seq<byte>, off: nat): (r: Option<(seq<byte>, seq<Term>, nat)>)
    requires 0 < off <= |s|
    ensures r.Some? ==> off < r.value.2 <= |s|
    decreases |s|, -1
  {
    match DecodePack(s[off..])
    case None => None
    case Some((body, used)) =>
      match DecodePath(body)
      case None => None
      case Some((path, k)) =>
        match DecodeTerms(body[k..])
        case None => None
        case Some(children) => Some((path, children, off + used))
  }

  function DecodeTerms(s: seq<byte>): Option<seq<Term>>
    decreases |s|, 1
  {
    if s == [] then Some([]) else
      match DecodeTerm(s)
      case None => None
      case Some((t, used)) =>
        match DecodeTerms(s[used..])
        case None => None
        case Some(ts) => Some([t] + ts)
  }

  lemma TermNonEmpty(t: Term)
    ensures TermBytes(t) != []
  {
  }

  lemma {:induction false} TermRoundTrip(t: Term, rest: seq<byte>)
    requires Readable(t)
    ensures DecodeTerm(TermBytes(t) + rest) == Some((t, |TermBytes(t)|))
    decreases t, 1
  {
    hide Pack, PathBytes, DecodePath, DecodeValue, ValueBytes, DecodePack, DecodeBody, DecodeTerms, TermsBytes,
        ReadablePath;
    var s := TermBytes(t) + rest;
    match t {
      case NameDecl(path, value) =>
        PathRoundTrip(path, ValueBytes(value) + rest);
        ValueRoundTrip(value, rest);
        assert s[1..] == PathBytes(path) + (ValueBytes(value) + rest);
        assert s[1 + |PathBytes(path)|..] == ValueBytes(value) + rest;
      case Device(path, children) =>
        BodyRoundTrip([0x5B, 0x82], path, children, rest);
        assert s == [0x5B, 0x82] + Pack(PathBytes(path) + TermsBytes(children)) + rest;
      case Scope(path, children) =>
        BodyRoundTrip([0x10], path, children, rest);
        assert s == [0x10] + Pack(PathBytes(path) + TermsBytes(children)) + rest;
    }
  }

  lemma {:induction false} BodyRoundTrip(op: seq<byte>, path: seq<byte>, children: seq<Term>, rest: seq<byte>)
    requires op != [] && ReadablePath(path) && AllReadable(children)
    requires |PathBytes(path) + TermsBytes(children)| < PKG_LIMIT
    ensures var p := Pack(PathBytes(path) + TermsBytes(children));
            DecodeBody(op + p + rest, |op|) == Some((path, children, |op| + |p|))
    decreases children, 1
  {
    hide Pack, PathBytes, DecodePath, DecodePack, DecodeTerms, TermsBytes, ReadablePath, AllReadable;
    var body := PathBytes(path) + TermsBytes(children);
    PackRoundTrip(body, rest);
    assert (op + Pack(body) + rest)[|op|..] == Pack(body) + rest;
    PathRoundTrip(path, TermsBytes(children));
    assert body[|PathBytes(path)|..] == TermsBytes(children);
    TermsRoundTrip(children);
  }

  lemma {:induction false} TermsRoundTrip(ts: seq<Term>)
    requires AllReadable(ts)
    ensures DecodeTerms(TermsBytes(ts)) == Some(ts)
    decreases ts, 0
  {
    hide TermBytes, DecodeTerm, Readable;
    if ts != [] {
      TermNonEmpty(ts[0]);
      TermRoundTrip(ts[0], TermsBytes(ts[1..]));
      TermsRoundTrip(ts[1..]);
      assert TermsBytes(ts)[|TermBytes(ts[0])|..] == TermsBytes(ts[1..]);
      assert ts == [ts[0]] + ts[1..];
    }
  }
}
