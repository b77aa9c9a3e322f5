// Guest buffers as chains of descriptors describe them: what a list of them holds, and stores that miss them.
module Buffers {
  import opened Bytes
  import opened Virtqueue

  function Total(ds: seq<Desc>): nat {
    if ds == [] then 0 else Total(ds[..|ds| - 1]) + ds[|ds| - 1].len
  }

  // data laid over s at off; nothing when it does not fit.
  function Lay(s: seq<byte>, off: nat, data: seq<byte>): (r: seq<byte>)
    ensures |r| == |s|
  {
    if off + |data| <= |s| then Splice(s, off, data) else s
  }

  function Slice(s: seq<byte>, off: nat, len: nat): (r: seq<byte>)
    ensures |r| == if off + len <= |s| then len else 0
  {
    if off + len <= |s| then s[off..off + len] else []
  }

  // The bytes of RAM that ds describes, in order.
  function Gather(ram: seq<byte>, ds: seq<Desc>): seq<byte> {
    if ds == [] then [] else Gather(ram, ds[..|ds| - 1]) + Slice(ram, ds[|ds| - 1].addr, ds[|ds| - 1].len)
  }

  lemma {:induction false} GatherLength(ram: seq<byte>, ds: seq<Desc>)
    requires forall d :: d in ds ==> InRange(|ram|, d.addr, d.len)
    ensures |Gather(ram, ds)| == Total(ds)
  {
    if ds != [] {
      assert ds[|ds| - 1] in ds;
      GatherLength(ram, ds[..|ds| - 1]);
    }
  }

  // The i-th buffer's bytes stand behind those of the earlier buffers.
  lemma {:induction false} GatherAt(ram: seq<byte>, ds: seq<Desc>, i: nat)
    requires i < |ds| && forall d :: d in ds ==> InRange(|ram|, d.addr, d.len)
    ensures Total(ds[..i]) + ds[i].len <= |Gather(ram, ds)|
    ensures Gather(ram, ds)[Total(ds[..i])..Total(ds[..i]) + ds[i].len] == Slice(ram, ds[i].addr, ds[i].len)
  {
    hide Slice;
    var n := |ds| - 1;
    assert ds[n] in ds && ds[i] in ds;
    GatherLast(ram, ds);
    if i < n {
      GatherAt(ram, ds[..n], i);
      assert ds[..n][..i] == ds[..i];
      SliceFront(Gather(ram, ds[..n]), Slice(ram, ds[n].addr, ds[n].len), Total(ds[..i]), ds[i].len);
    } else {
      GatherLength(ram, ds[..n]);
      SliceBack(Gather(ram, ds[..n]), Slice(ram, ds[n].addr, ds[n].len));
    }
  }

  lemma GatherLast(ram: seq<byte>, ds: seq<Desc>)
    requires ds != [] && InRange(|ram|, ds[|ds| - 1].addr, ds[|ds| - 1].len)
    ensures var d := ds[|ds| - 1];
            Gather(ram, ds) == Gather(ram, ds[..|ds| - 1]) + Slice(ram, d.addr, d.len) && |Slice(ram, d.addr, d.len)| == d.len
  {
  }

  lemma SliceFront(a: seq<byte>, b: seq<byte>, at: nat, n: nat)
    requires at + n <= |a|
    ensures (a + b)[at..at + n] == a[at..at + n]
  {
  }

  lemma SliceBack(a: seq<byte>, b: seq<byte>)
    ensures (a + b)[|a|..|a| + |b|] == b
  {
  }

  predicate Apart(a: nat, n: nat, b: nat, m: nat) {
    a + n <= b || b + m <= a
  }

  lemma LayFrame(ram: seq<byte>, at: nat, data: seq<byte>, lo: nat, n: nat)
    requires lo + n <= |ram| && Apart(at, |data|, lo, n)
    ensures Lay(ram, at, data)[lo..lo + n] == ram[lo..lo + n]
  {
    if at + |data| <= |ram| { SpliceAt(ram, at, data); }
  }

  ghost predicate Disjoint(ds: seq<Desc>) {
    forall i, j :: 0 <= i < j < |ds| ==> Apart(ds[i].addr, ds[i].len, ds[j].addr, ds[j].len)
  }

  lemma {:induction false} GatherFrame(ram: seq<byte>, ram': seq<byte>, ds: seq<Desc>)
    requires |ram| == |ram'|
    requires forall d :: d in ds ==> Slice(ram', d.addr, d.len) == Slice(ram, d.addr, d.len)
    ensures Gather(ram', ds) == Gather(ram, ds)
  {
    hide Slice;
    if ds != [] {
      assert ds[|ds| - 1] in ds;
      GatherFrame(ram, ram', ds[..|ds| - 1]);
    }
  }

  // A store that misses every buffer does not change what the buffers hold.
  lemma GatherMissed(ram: seq<byte>, at: nat, data: seq<byte>, ds: seq<Desc>)
    requires forall d :: d in ds ==> Apart(at, |data|, d.addr, d.len)
    ensures Gather(Lay(ram, at, data), ds) == Gather(ram, ds)
  {
    hide Lay;
    forall d | d in ds ensures Slice(Lay(ram, at, data), d.addr, d.len) == Slice(ram, d.addr, d.len) {
      if d.addr + d.len <= |ram| { LayFrame(ram, at, data, d.addr, d.len); }
    }
    GatherFrame(ram, Lay(ram, at, data), ds);
  }

  lemma SliceAppend(s: seq<byte>, off: nat, a: nat, b: nat)
    requires off + a + b <= |s|
    ensures Slice(s, off, a) + Slice(s, off + a, b) == Slice(s, off, a + b)
    ensures |Slice(s, off + a, b)| == b
  {
  }

  lemma MissesEarlier(ds: seq<Desc>, n: nat)
    requires ds != [] && Disjoint(ds) && n <= ds[|ds| - 1].len
    ensures forall e :: e in ds[..|ds| - 1] ==> Apart(ds[|ds| - 1].addr, n, e.addr, e.len)
  {
    var init := ds[..|ds| - 1];
    forall e | e in init ensures Apart(ds[|ds| - 1].addr, n, e.addr, e.len) {
      var i :| 0 <= i < |init| && init[i] == e;
      assert Apart(ds[i].addr, ds[i].len, ds[|ds| - 1].addr, ds[|ds| - 1].len);
    }
  }

  lemma LaidBack(ram: seq<byte>, at: nat, data: seq<byte>)
    requires at + |data| <= |ram|
    ensures Slice(Lay(ram, at, data), at, |data|) == data
  {
    SpliceAt(ram, at, data);
    assert Splice(ram, at, data)[at..at + |data|] == data;
  }

  lemma DisjointPrefix(ds: seq<Desc>, k: nat)
    requires Disjoint(ds) && k <= |ds|
    ensures Disjoint(ds[..k])
  {
  }

  lemma LayAppend(s: seq<byte>, off: nat, a: seq<byte>, at: nat, b: seq<byte>)
    requires at == off + |a| && at + |b| <= |s|
    ensures Lay(Lay(s, off, a), at, b) == Lay(s, off, a + b)
  {
    SpliceAt(s, off, a);
    SpliceAt(Splice(s, off, a), off + |a|, b);
    SpliceAt(s, off, a + b);
    assert Splice(Splice(s, off, a), at, b) == Splice(s, off, a + b);
  }
}
