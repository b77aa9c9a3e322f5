// The split virtqueue of virtio 1.1 section 2.6 as the devices use it: descriptor table, chain walk,
// available ring and used ring (native/kvm/backend.cc:1641-1660, 1859-1898; native/hvf/backend.cc:1437-1507).
module Virtqueue {
  import opened Bytes

  const MAX_QUEUE_SIZE: nat := 256

  datatype Desc = Desc(addr: u64, len: u32, flags: u16, next: u16) {
    predicate HasNext() { flags % 2 == 1 }
    predicate Writable() { flags / 2 % 2 == 1 }
    predicate Indirect() { flags / 4 % 2 == 1 }
  }

  datatype Layout = Layout(size: nat, desc: nat, driver: nat, device: nat) {
    // The ranges that ValidVirtQueue checks before a queue may become ready.
    predicate Fits(memSize: nat) {
      && 1 <= size <= MAX_QUEUE_SIZE
      && InRange(memSize, desc, size * 16)
      && InRange(memSize, driver, 6 + size * 2)
      && InRange(memSize, device, 6 + size * 8)
    }

    function Table(ram: seq<byte>): (t: seq<byte>)
      requires Fits(|ram|)
      ensures |t| == size * 16
    {
      ram[desc..desc + size * 16]
    }

    function Avail(ram: seq<byte>): (a: seq<byte>)
      requires Fits(|ram|)
      ensures |a| == 4 + size * 2
    {
      ram[driver..driver + (4 + size * 2)]
    }

    function Used(ram: seq<byte>): (u: seq<byte>)
      requires Fits(|ram|)
      ensures |u| == 4 + size * 8
    {
      ram[device..device + (4 + size * 8)]
    }
  }

  // ---- Descriptor table and chain walk ----

  function DescAt(table: seq<byte>, i: nat): Desc
    requires i * 16 + 16 <= |table|
  {
    Desc(U64At(table, i * 16), U32At(table, i * 16 + 8), U16At(table, i * 16 + 12), U16At(table, i * 16 + 14))
  }

  function Unseen(size: nat, seen: set<nat>): set<nat> {
    set i: nat | i < size && i !in seen
  }

  lemma UnseenShrinks(size: nat, seen: set<nat>, i: nat)
    requires i < size && i !in seen
    ensures |Unseen(size, seen + {i})| == |Unseen(size, seen)| - 1
  {
    assert Unseen(size, seen + {i}) == Unseen(size, seen) - {i};
  }

  // The walk as a function of the table: the indices visited, or None where the source throws.
  function Walk(table: seq<byte>, size: nat, idx: nat, seen: set<nat>): (p: Option<seq<nat>>)
    requires |table| == size * 16
    decreases |Unseen(size, seen)|
  {
    if idx >= size || idx in seen then None else
      var d := DescAt(table, idx);
      if d.Indirect() then None
      else if !d.HasNext() then Some([idx])
      else
        UnseenShrinks(size, seen, idx);
        match Walk(table, size, d.next, seen + {idx})
        case None => None
        case Some(rest) => Some([idx] + rest)
  }

  // The 16 bytes of a descriptor, as the driver writes them.
  lemma DescriptorRead(table: seq<byte>, i: nat, addr: u64, len: u32, flags: u16, next: u16)
    requires i * 16 + 16 <= |table|
    requires table[i * 16..i * 16 + 16] == Le64(addr) + Le32(len) + Le16(flags) + Le16(next)
    ensures DescAt(table, i) == Desc(addr, len, flags, next)
  {
    hide Le64, Le32, Le16, U64At, U32At, U16At;
    var a := i * 16;
    var b := table[a..a + 16];
    FieldOfSlice(table, a, 8);
    FieldOfSlice(table, a + 8, 4);
    FieldOfSlice(table, a + 12, 2);
    FieldOfSlice(table, a + 14, 2);
    SliceOfSlice(table, a, 16, 0, 8);
    SliceOfSlice(table, a, 16, 8, 4);
    SliceOfSlice(table, a, 16, 12, 2);
    SliceOfSlice(table, a, 16, 14, 2);
    assert b[0..8] == Le64(addr) && b[8..12] == Le32(len) && b[12..14] == Le16(flags) && b[14..16] == Le16(next);
  }

  // p is the NEXT path from head: in range, without indirect descriptors (flag bit 2), ending at the first
  // descriptor without NEXT (flag bit 0), and visiting nothing twice.
  ghost predicate IsPath(table: seq<byte>, size: nat, head: nat, p: seq<nat>)
    requires |table| == size * 16
  {
    && p != [] && p[0] == head
    && (forall i :: 0 <= i < |p| ==> p[i] < size && DescAt(table, p[i]).flags / 4 % 2 == 0)
    && (forall i :: 0 <= i < |p| ==> DescAt(table, p[i]).flags % 2 == if i < |p| - 1 then 1 else 0)
    && (forall i :: 0 <= i < |p| - 1 ==> DescAt(table, p[i]).next == p[i + 1])
    && (forall i, j :: 0 <= i < j < |p| ==> p[i] != p[j])
  }

  lemma PathExtends(table: seq<byte>, size: nat, head: nat, rest: seq<nat>)
    requires |table| == size * 16 && head < size && head !in rest
    requires DescAt(table, head).HasNext() && !DescAt(table, head).Indirect()
    requires IsPath(table, size, DescAt(table, head).next, rest)
    ensures IsPath(table, size, head, [head] + rest)
  {
    hide DescAt;
    var p := [head] + rest;
    assert forall i :: 0 <= i < |rest| ==> p[i + 1] == rest[i];
  }

  // Walking returns exactly the path, and it fails exactly when there is none.
  lemma {:induction false} WalkExact(table: seq<byte>, size: nat, head: nat, seen: set<nat>, p: seq<nat>)
    requires |table| == size * 16
    ensures Walk(table, size, head, seen) == Some(p)
       <==> IsPath(table, size, head, p) && forall i :: 0 <= i < |p| ==> p[i] !in seen
    decreases |Unseen(size, seen)|
  {
    if head < size && head !in seen && DescAt(table, head).HasNext() && !DescAt(table, head).Indirect() {
      var next := DescAt(table, head).next;
      UnseenShrinks(size, seen, head);
      if p != [] { WalkExact(table, size, next, seen + {head}, p[1..]); }
      if IsPath(table, size, head, p) && forall i :: 0 <= i < |p| ==> p[i] !in seen {
        forall i | 0 <= i < |p[1..]| ensures p[1..][i] !in seen + {head} { assert p[1..][i] == p[i + 1]; }
        assert p == [head] + p[1..];
      }
      if Walk(table, size, head, seen) == Some(p) {
        var rest := Walk(table, size, next, seen + {head}).value;
        assert p[1..] == rest;
        PathExtends(table, size, head, rest);
      }
    } else if IsPath(table, size, head, p) {
      assert |p| == 1 ==> p == [head];
    }
  }

  // The property the devices rely on: a successful walk is the one acyclic path, with at most size descriptors.
  lemma WalkPath(table: seq<byte>, size: nat, head: nat)
    requires |table| == size * 16
    ensures Walk(table, size, head, {}).Some? <==> exists p :: IsPath(table, size, head, p)
    ensures forall p :: IsPath(table, size, head, p) ==> Walk(table, size, head, {}) == Some(p) && |p| <= size
  {
    forall p ensures Walk(table, size, head, {}) == Some(p) <==> IsPath(table, size, head, p) {
      WalkExact(table, size, head, {}, p);
    }
    forall p | IsPath(table, size, head, p) ensures |p| <= size { DistinctBounded(p, size); }
    if Walk(table, size, head, {}).Some? {
      assert IsPath(table, size, head, Walk(table, size, head, {}).value);
    }
  }

  lemma {:induction false} DistinctBounded(p: seq<nat>, n: nat)
    requires forall i :: 0 <= i < |p| ==> p[i] < n
    requires forall i, j :: 0 <= i < j < |p| ==> p[i] != p[j]
    ensures |p| <= n
  {
    assert p != [] ==> p[0] < n;
    if n > 0 {
      if k :| 0 <= k < |p| && p[k] == n - 1 {
        var q := p[..k] + p[k + 1..];
        forall i, j | 0 <= i < j < |q| ensures q[i] != q[j] && q[i] < n - 1 && q[j] < n - 1 {}
        assert forall i :: 0 <= i < |q| ==> q[i] < n - 1;
        DistinctBounded(q, n - 1);
      } else {
        DistinctBounded(p, n - 1);
      }
    }
  }

  function Descs(table: seq<byte>, size: nat, p: seq<nat>): (ds: seq<Desc>)
    requires |table| == size * 16 && forall i :: 0 <= i < |p| ==> p[i] < size
    ensures |ds| == |p| && forall i :: 0 <= i < |p| ==> ds[i] == DescAt(table, p[i])
  {
    seq(|p|, i requires 0 <= i < |p| => DescAt(table, p[i]))
  }

  lemma {:induction false} WalkInRange(table: seq<byte>, size: nat, idx: nat, seen: set<nat>)
    requires |table| == size * 16
    ensures var w := Walk(table, size, idx, seen);
            w.Some? ==> w.value != [] && forall i :: 0 <= i < |w.value| ==> w.value[i] < size
    decreases |Unseen(size, seen)|
  {
    if Walk(table, size, idx, seen).Some? { WalkExact(table, size, idx, seen, Walk(table, size, idx, seen).value); }
  }

  // The chain from head, as process_request sees it.
  function Chain(table: seq<byte>, size: nat, head: nat): (c: Option<seq<Desc>>)
    requires |table| == size * 16
    ensures c.Some? ==> c.value != []
  {
    WalkInRange(table, size, head, {});
    match Walk(table, size, head, {})
    case None => None
    case Some(p) => Some(Descs(table, size, p))
  }

  // read_desc addresses RAM directly; it sees the table's entry.
  method ReadDesc(mem: array<byte>, q: Layout, i: nat) returns (d: Desc)
    requires q.Fits(mem.Length) && i < q.size
    ensures d == DescAt(q.Table(mem[..]), i)
  {
    var p := mem[q.desc + i * 16..q.desc + i * 16 + 16];
    d := Desc(U64At(p, 0), U32At(p, 8), U16At(p, 12), U16At(p, 14));
    SliceOfSlice(mem[..], q.desc, q.size * 16, i * 16, 16);
    assert p == mem[..][q.desc + i * 16..q.desc + i * 16 + 16];
  }

  lemma {:induction false} AllUnseen(size: nat)
    ensures |Unseen(size, {})| == size
  {
    if size > 0 {
      AllUnseen(size - 1);
      assert Unseen(size, {}) == Unseen(size - 1, {}) + {size - 1};
    }
  }

  // One turn of the walk moves an index from the walk still to do to the path already done.
  lemma WalkStep(table: seq<byte>, size: nat, idx: nat, seen: set<nat>, path: seq<nat>)
    requires |table| == size * 16 && idx < size && idx !in seen && !DescAt(table, idx).Indirect()
    ensures var d := DescAt(table, idx);
            Prepend(path, Walk(table, size, idx, seen))
            == if d.HasNext() then Prepend(path + [idx], Walk(table, size, d.next, seen + {idx})) else Some(path + [idx])
  {
    var d := DescAt(table, idx);
    if d.HasNext() {
      var w := Walk(table, size, d.next, seen + {idx});
      if w.Some? { assert path + ([idx] + w.value) == path + [idx] + w.value; }
    }
  }

  // walk_chain: the loop over RAM with its seen[] array. Its length check never fires.
  method WalkChain(mem: array<byte>, q: Layout, head: nat) returns (r: Result<seq<Desc>>)
    requires q.Fits(mem.Length)
    ensures match r case Ok(c) => Chain(q.Table(mem[..]), q.size, head) == Some(c)
                    case Err(_) => Chain(q.Table(mem[..]), q.size, head) == None
  {
    ghost var table := q.Table(mem[..]);
    var seen := seq(q.size, _ => false);
    ghost var visited: set<nat>, path: seq<nat> := {}, [];
    var chain: seq<Desc> := [];
    var idx: nat := head;
    WalkBegins(table, q.size, head);
    while true
      invariant |seen| == q.size && WalkSoFar(table, q.size, head, seen, visited, path, chain, idx)
      decreases |Unseen(q.size, visited)|
    {
      hide *;
      if idx >= q.size {
        WalkStops(table, q.size, head, seen, visited, path, chain, idx);
        return Err("virtio descriptor next out of bounds");
      }
      if seen[idx] {
        WalkStops(table, q.size, head, seen, visited, path, chain, idx);
        return Err("virtio descriptor cycle");
      }
      ghost var before := seen;
      seen := seen[idx := true];
      var d := ReadDesc(mem, q, idx);
      if d.Indirect() {
        WalkStops(table, q.size, head, before, visited, path, chain, idx);
        return Err("virtio indirect descriptors are not supported");
      }
      WalkGoes(table, q.size, head, before, visited, path, chain, idx);
      if |chain| >= MAX_QUEUE_SIZE { assert false; return Err("virtio descriptor chain too long"); }
      chain, path, visited := chain + [d], path + [idx], visited + {idx};
      if !d.HasNext() { return Ok(chain); }
      idx := d.next;
    }
  }

  // Where the walk stands before it looks at idx: the marks, the indices behind it and their descriptors.
  ghost predicate WalkSoFar(table: seq<byte>, size: nat, head: nat, seen: seq<bool>, visited: set<nat>, path: seq<nat>,
      chain: seq<Desc>, idx: nat)
    requires |table| == size * 16 && |seen| == size
  {
    && (forall i: nat :: i in visited <==> i < size && seen[i])
    && |path| == |chain| == size - |Unseen(size, visited)|
    && (forall i :: 0 <= i < |path| ==> path[i] < size && chain[i] == DescAt(table, path[i]))
    && Walk(table, size, head, {}) == Prepend(path, Walk(table, size, idx, visited))
  }

  lemma WalkBegins(table: seq<byte>, size: nat, head: nat)
    requires |table| == size * 16
    ensures WalkSoFar(table, size, head, seq(size, _ => false), {}, [], [], head)
  {
    hide Walk;
    AllUnseen(size);
    NothingPrepended(Walk(table, size, head, {}));
  }

  // One more descriptor: the walk goes on at its next index, or is the whole chain.
  lemma WalkGoes(table: seq<byte>, size: nat, head: nat, seen: seq<bool>, visited: set<nat>, path: seq<nat>,
      chain: seq<Desc>, idx: nat)
    requires |table| == size * 16 && |seen| == size && WalkSoFar(table, size, head, seen, visited, path, chain, idx)
    requires idx < size && !seen[idx] && !DescAt(table, idx).Indirect()
    ensures |chain| < size && |Unseen(size, visited + {idx})| < |Unseen(size, visited)|
    ensures var d := DescAt(table, idx);
      && (d.HasNext() ==>
            WalkSoFar(table, size, head, seen[idx := true], visited + {idx}, path + [idx], chain + [d], d.next))
      && (!d.HasNext() ==> Chain(table, size, head) == Some(chain + [d]))
  {
    hide Walk, Unseen, DescAt, Prepend, Chain;
    UnseenShrinks(size, visited, idx);
    WalkStep(table, size, idx, visited, path);
    var d := DescAt(table, idx);
    if !d.HasNext() { WalkEnds(table, size, head, path + [idx], chain + [d]); }
  }

  lemma WalkStops(table: seq<byte>, size: nat, head: nat, seen: seq<bool>, visited: set<nat>, path: seq<nat>,
      chain: seq<Desc>, idx: nat)
    requires |table| == size * 16 && |seen| == size && WalkSoFar(table, size, head, seen, visited, path, chain, idx)
    requires idx >= size || seen[idx] || DescAt(table, idx).Indirect()
    ensures Chain(table, size, head) == None
  {
  }

  lemma WalkEnds(table: seq<byte>, size: nat, head: nat, path: seq<nat>, chain: seq<Desc>)
    requires |table| == size * 16 && Walk(table, size, head, {}) == Some(path) && |chain| == |path|
    requires forall i :: 0 <= i < |path| ==> path[i] < size && chain[i] == DescAt(table, path[i])
    ensures Chain(table, size, head) == Some(chain)
  {
    hide Walk, DescAt;
    assert chain == Descs(table, size, path);
  }

  lemma NothingPrepended(w: Option<seq<nat>>)
    ensures Prepend([], w) == w
  {
    if w.Some? { assert [] + w.value == w.value; }
  }

  ghost function Prepend(path: seq<nat>, w: Option<seq<nat>>): Option<seq<nat>> {
    if w.None? then None else Some(path + w.value)
  }
}
