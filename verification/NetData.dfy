// The virtio-net data path: a received frame scattered behind its 12-byte header over a chain of
// buffers, and a transmitted packet gathered from one (native/kvm/backend.cc:2360-2464).
module NetData {
  import opened Bytes
  import opened Virtqueue
  import opened UsedRing
  import opened Buffers
  import opened BlockDevice

  const HEADER: nat := 12

  // What the guest receives: a zero virtio-net header and the frame.
  function Framed(frame: seq<byte>): (f: seq<byte>)
    ensures |f| == HEADER + |frame|
  {
    Zeros(HEADER) + frame
  }

  // RAM after data has been laid, in order, over the buffers of ds, as far as both reach.
  function Fill(ram: seq<byte>, ds: seq<Desc>, data: seq<byte>): (r: seq<byte>)
    ensures |r| == |ram|
  {
    if ds == [] then ram else
      var init, d := ds[..|ds| - 1], ds[|ds| - 1];
      Lay(Fill(ram, init, data), d.addr, data[Min(|data|, Total(init))..Min(|data|, Total(ds))])
  }

  // The loop looks at descriptors until needed bytes are placed; each must be writable and inside RAM.
  // The first index where it stops, counting from i.
  function Stop(ramSize: nat, ds: seq<Desc>, needed: nat, i: nat): (k: nat)
    requires i <= |ds|
    ensures i <= k <= |ds|
    decreases |ds| - i
  {
    if i == |ds| || Total(ds[..i]) >= needed || !ds[i].Writable() || !InRange(ramSize, ds[i].addr, ds[i].len) then i
    else Stop(ramSize, ds, needed, i + 1)
  }

  lemma {:induction false} StopPassed(ramSize: nat, ds: seq<Desc>, needed: nat, i: nat, j: nat)
    requires i <= |ds| && i <= j < Stop(ramSize, ds, needed, i)
    ensures InRange(ramSize, ds[j].addr, ds[j].len)
    decreases |ds| - i
  {
    if i < j { StopPassed(ramSize, ds, needed, i + 1, j); }
  }

  // Disjoint buffers hold the data from their start on, and behind it what they held before.
  lemma {:induction false} FillGather(ram: seq<byte>, ds: seq<Desc>, data: seq<byte>)
    requires Disjoint(ds) && forall d :: d in ds ==> InRange(|ram|, d.addr, d.len)
    ensures |Gather(ram, ds)| == Total(ds)
    ensures var n := Min(|data|, Total(ds)); Gather(Fill(ram, ds, data), ds) == data[..n] + Gather(ram, ds)[n..]
  {
    hide Lay, Slice, Apart, Disjoint, Gather, Fill, Total;
    GatherLength(ram, ds);
    if ds == [] {
      NothingFilled(ram, data);
    } else {
      var init, d := ds[..|ds| - 1], ds[|ds| - 1];
      assert d in ds;
      DisjointPrefix(ds, |init|);
      FillGather(ram, init, data);
      TotalLast(ds);
      var from, to := Min(|data|, Total(init)), Min(|data|, Total(ds));
      var mid := Fill(ram, init, data);
      MissesEarlier(ds, to - from);
      GatherMissed(mid, d.addr, data[from..to], init);
      assert init + [d] == ds;
      FillLast(ram, init, data, d);
      TailFilled(mid, d, data[from..to]);
      FillStep(ram, ds, data);
      GatherLast(ram, ds);
      GatherLast(Fill(ram, ds, data), ds);
      JoinFilled(data, from, to, Gather(ram, init), Slice(ram, d.addr, d.len));
    }
  }

  lemma NothingFilled(ram: seq<byte>, data: seq<byte>)
    ensures Total([]) == 0 && Gather(Fill(ram, [], data), []) == [] == Gather(ram, [])
  {
  }

  lemma FillStep(ram: seq<byte>, ds: seq<Desc>, data: seq<byte>)
    requires ds != []
    ensures var init, d := ds[..|ds| - 1], ds[|ds| - 1];
            && Min(|data|, Total(init)) <= Min(|data|, Total(ds))
            && Fill(ram, ds, data)
               == Lay(Fill(ram, init, data), d.addr, data[Min(|data|, Total(init))..Min(|data|, Total(ds))])
  {
  }

  // Filling the earlier buffers leaves the last one as it was.
  lemma {:induction false} FillLast(ram: seq<byte>, ds: seq<Desc>, data: seq<byte>, d: Desc)
    requires InRange(|ram|, d.addr, d.len)
    requires Disjoint(ds + [d])
    ensures Slice(Fill(ram, ds, data), d.addr, d.len) == Slice(ram, d.addr, d.len)
  {
    hide Lay, Total;
    if ds != [] {
      var init, e := ds[..|ds| - 1], ds[|ds| - 1];
      assert Apart((ds + [d])[|ds| - 1].addr, (ds + [d])[|ds| - 1].len, (ds + [d])[|ds|].addr, (ds + [d])[|ds|].len);
      forall i, j | 0 <= i < j < |init + [d]|
        ensures Apart((init + [d])[i].addr, (init + [d])[i].len, (init + [d])[j].addr, (init + [d])[j].len)
      {
        var j' := if j == |init| then |ds| else j;
        assert Apart((ds + [d])[i].addr, (ds + [d])[i].len, (ds + [d])[j'].addr, (ds + [d])[j'].len);
      }
      FillLast(ram, init, data, d);
      TotalLast(ds);
      var piece := data[Min(|data|, Total(init))..Min(|data|, Total(ds))];
      LayFrame(Fill(ram, init, data), e.addr, piece, d.addr, d.len);
    }
  }

  lemma TotalLast(ds: seq<Desc>)
    requires ds != []
    ensures Total(ds) == Total(ds[..|ds| - 1]) + ds[|ds| - 1].len
  {
  }

  lemma TailFilled(ram: seq<byte>, d: Desc, piece: seq<byte>)
    requires InRange(|ram|, d.addr, d.len) && |piece| <= d.len
    ensures Slice(Lay(ram, d.addr, piece), d.addr, d.len) == piece + Slice(ram, d.addr, d.len)[|piece|..]
  {
    SpliceAt(ram, d.addr, piece);
    assert Splice(ram, d.addr, piece)[d.addr..d.addr + d.len] == piece + ram[d.addr..d.addr + d.len][|piece|..];
  }

  lemma JoinFilled(data: seq<byte>, from: nat, to: nat, a: seq<byte>, b: seq<byte>)
    requires from == Min(|data|, |a|) && to == Min(|data|, |a| + |b|)
    ensures (data[..from] + a[from..]) + (data[from..to] + b[to - from..]) == data[..to] + (a + b)[to..]
  {
  }

  // What disjoint buffers with room for it hold once a frame was laid over them: twelve zero bytes and the
  // frame, and behind them the old bytes.
  lemma Received(ram: seq<byte>, ds: seq<Desc>, frame: seq<byte>)
    requires Disjoint(ds) && (forall d :: d in ds ==> InRange(|ram|, d.addr, d.len))
    requires HEADER + |frame| <= Total(ds)
    ensures |Gather(ram, ds)| == |Gather(Fill(ram, ds, Framed(frame)), ds)| == Total(ds)
    ensures Holds(Gather(ram, ds), Gather(Fill(ram, ds, Framed(frame)), ds), frame)
  {
    hide Gather, Fill, Total, Disjoint;
    FillGather(ram, ds, Framed(frame));
  }

  predicate Holds(was: seq<byte>, got: seq<byte>, frame: seq<byte>) {
    && |got| == |was| >= 12 + |frame|
    && (forall i :: 0 <= i < 12 ==> got[i] == 0)
    && got[12..12 + |frame|] == frame
    && got[12 + |frame|..] == was[12 + |frame|..]
  }

  // How inject_rx_frame ends on the chain ds.
  ghost predicate Injected(q: Layout, before: seq<byte>, after: seq<byte>, ds: seq<Desc>, frame: seq<byte>, head: u16,
      r: Result<bool>)
    requires q.Fits(|before|) && 12 + |frame| < U32_SPAN
  {
    var k := Stop(|before|, ds, 12 + |frame|, 0);
    var filled := Fill(before, ds[..k], Framed(frame));
    if Total(ds[..k]) >= 12 + |frame| then
      r == Ok(true) && after == PushInRam(filled, q, Entry(head, 12 + |frame|))
    else
      after == filled && if k == |ds| then r == Ok(false) else r.Err?
  }

  // The first n buffers are for the device to write and lie inside RAM.
  predicate Good(ramSize: nat, ds: seq<Desc>, n: nat)
    requires n <= |ds|
  {
    forall i :: 0 <= i < n ==> ds[i].flags / 2 % 2 == 1 && ds[i].addr + ds[i].len <= ramSize
  }

  // Which ending it is: the frame is delivered exactly when some front of the chain is good and has room for it
  // behind its header, and the chain is consumed without delivery exactly when it is good and too small.
  lemma InjectedIff(q: Layout, before: seq<byte>, after: seq<byte>, ds: seq<Desc>, frame: seq<byte>, head: u16,
      r: Result<bool>)
    requires q.Fits(|before|) && 12 + |frame| < U32_SPAN && Injected(q, before, after, ds, frame, head, r)
    ensures r == Ok(true) <==>
            exists k :: 0 <= k <= |ds| && Good(|before|, ds, k) && Total(ds[..k]) >= 12 + |frame|
    ensures r == Ok(false) <==> Good(|before|, ds, |ds|) && Total(ds) < 12 + |frame|
  {
    hide Fill, PushInRam, Framed, Total, Good;
    var needed := 12 + |frame|;
    StopIs(|before|, ds, needed);
    var k := Stop(|before|, ds, needed, 0);
    assert ds[..|ds|] == ds;
    if Total(ds[..k]) < needed {
      forall n | 0 <= n <= |ds| && Good(|before|, ds, n) ensures Total(ds[..n]) < needed {
        GoodShorter(|before|, ds, n);
        if n <= k { TotalGrows(ds, n, k); }
      }
      if k < |ds| && Good(|before|, ds, |ds|) { GoodFront(|before|, ds, |ds|, k + 1); }
    } else {
      TotalGrows(ds, k, |ds|);
    }
  }

  lemma GoodFront(ramSize: nat, ds: seq<Desc>, n: nat, m: nat)
    requires m <= n <= |ds| && Good(ramSize, ds, n)
    ensures Good(ramSize, ds, m)
  {
  }

  lemma GoodShorter(ramSize: nat, ds: seq<Desc>, n: nat)
    requires n <= |ds| && Good(ramSize, ds, n)
    ensures forall m :: 0 <= m <= n ==> Good(ramSize, ds, m)
  {
  }

  lemma {:induction false} TotalGrows(ds: seq<Desc>, m: nat, n: nat)
    requires m <= n <= |ds|
    ensures Total(ds[..m]) <= Total(ds[..n])
  {
    if m < n {
      TotalGrows(ds, m, n - 1);
      assert ds[..n][..n - 1] == ds[..n - 1];
    }
  }

  // The loop stops where there is room enough, or before a buffer that is not good, or at the end.
  lemma StopIs(ramSize: nat, ds: seq<Desc>, needed: nat)
    ensures var k := Stop(ramSize, ds, needed, 0);
            && Good(ramSize, ds, k)
            && (k < |ds| ==> Total(ds[..k]) >= needed || !Good(ramSize, ds, k + 1))
  {
    hide Total, Stop;
    StopFrom(ramSize, ds, needed, 0);
  }

  lemma {:induction false} StopFrom(ramSize: nat, ds: seq<Desc>, needed: nat, i: nat)
    requires i <= |ds|
    ensures var k := Stop(ramSize, ds, needed, i);
            && (forall j :: i <= j < k ==> ds[j].flags / 2 % 2 == 1 && ds[j].addr + ds[j].len <= ramSize)
            && (k < |ds| ==> Total(ds[..k]) >= needed || ds[k].flags / 2 % 2 != 1 || ds[k].addr + ds[k].len > ramSize)
    decreases |ds| - i
  {
    hide Total;
    if i < |ds| { StopFrom(ramSize, ds, needed, i + 1); }
  }

  lemma {:induction false} FillFrame(ram: seq<byte>, ds: seq<Desc>, data: seq<byte>, lo: nat, n: nat)
    requires lo + n <= |ram| && forall d :: d in ds ==> Apart(lo, n, d.addr, d.len)
    ensures Fill(ram, ds, data)[lo..lo + n] == ram[lo..lo + n]
  {
    hide Lay, Total;
    if ds != [] {
      var init, d := ds[..|ds| - 1], ds[|ds| - 1];
      assert d in ds;
      FillFrame(ram, init, data, lo, n);
      TotalLast(ds);
      LayFrame(Fill(ram, init, data), d.addr, data[Min(|data|, Total(init))..Min(|data|, Total(ds))], lo, n);
    }
  }

  // The descriptors that the frame went into.
  function Taking(ramSize: nat, ds: seq<Desc>, frame: seq<byte>): seq<Desc> {
    ds[..Stop(ramSize, ds, HEADER + |frame|, 0)]
  }

  // What the guest finds when inject_rx_frame has delivered into disjoint buffers off the used ring: the
  // frame behind its header in them, and one more used entry, with the frame's length and the chain's head.
  lemma Delivered(q: Layout, before: seq<byte>, after: seq<byte>, ds: seq<Desc>, frame: seq<byte>, head: u16)
    requires q.Fits(|before|) && HEADER + |frame| < U32_SPAN && Injected(q, before, after, ds, frame, head, Ok(true))
    requires Disjoint(Taking(|before|, ds, frame))
    requires forall d :: d in Taking(|before|, ds, frame) ==> Apart(q.device, 4 + q.size * 8, d.addr, d.len)
    ensures |after| == |before|
    ensures var taking := Taking(|before|, ds, frame); Holds(Gather(before, taking), Gather(after, taking), frame)
    ensures q.Used(after) == Push(q.Used(before), q.size, Entry(head, 12 + |frame|))
  {
    hide Gather, Fill, Total, Disjoint, PushInRam, Framed, Holds, Push, Taking, Injected, Layout.Used, Apart;
    var taking := Taking(|before|, ds, frame);
    var filled := Fill(before, taking, Framed(frame));
    TakingInRange(|before|, ds, frame);
    InjectedOk(q, before, after, ds, frame, head);
    Received(before, taking, frame);
    UsedFilled(q, before, taking, Framed(frame));
    UsedPushed(filled, after, q, Entry(head, HEADER + |frame|), taking);
  }

  lemma UsedFilled(q: Layout, ram: seq<byte>, ds: seq<Desc>, data: seq<byte>)
    requires q.Fits(|ram|) && forall d :: d in ds ==> Apart(q.device, 4 + q.size * 8, d.addr, d.len)
    ensures q.Used(Fill(ram, ds, data)) == q.Used(ram)
  {
    hide Fill, Apart;
    FillFrame(ram, ds, data, q.device, 4 + q.size * 8);
  }

  lemma SliceSame(a: seq<byte>, b: seq<byte>, at: nat, n: nat)
    requires |a| == |b| && (at + n <= |a| ==> a[at..at + n] == b[at..at + n])
    ensures Slice(a, at, n) == Slice(b, at, n)
  {
  }

  lemma TakingInRange(ramSize: nat, ds: seq<Desc>, frame: seq<byte>)
    ensures forall d :: d in Taking(ramSize, ds, frame) ==> InRange(ramSize, d.addr, d.len)
  {
    var taking := Taking(ramSize, ds, frame);
    forall d | d in taking ensures InRange(ramSize, d.addr, d.len) {
      var j :| 0 <= j < |taking| && taking[j] == d;
      StopPassed(ramSize, ds, HEADER + |frame|, 0, j);
    }
  }

  lemma InjectedOk(q: Layout, before: seq<byte>, after: seq<byte>, ds: seq<Desc>, frame: seq<byte>, head: u16)
    requires q.Fits(|before|) && HEADER + |frame| < U32_SPAN && Injected(q, before, after, ds, frame, head, Ok(true))
    ensures var taking := Taking(|before|, ds, frame);
            && HEADER + |frame| <= Total(taking)
            && after == PushInRam(Fill(before, taking, Framed(frame)), q, Entry(head, HEADER + |frame|))
  {
    hide Fill, Total, PushInRam, Framed, Stop;
  }

  lemma UsedPushed(ram: seq<byte>, after: seq<byte>, q: Layout, e: Entry, ds: seq<Desc>)
    requires q.Fits(|ram|) && after == PushInRam(ram, q, e)
    requires forall d :: d in ds ==> Apart(q.device, 4 + q.size * 8, d.addr, d.len)
    ensures Gather(after, ds) == Gather(ram, ds) && q.Used(after) == Push(q.Used(ram), q.size, e)
  {
    hide PushInRam, Push, Layout.Used, Slice;
    forall d | d in ds ensures Slice(after, d.addr, d.len) == Slice(ram, d.addr, d.len) {
      if d.addr + d.len <= |ram| { PushFrame(ram, q, e, d.addr, d.len); }
      SliceSame(after, ram, d.addr, d.len);
    }
    GatherFrame(ram, after, ds);
    PushFrame(ram, q, e, 0, 0);
  }

  // ---- Transmit ----

  // uint64_t addition, which wraps.
  function AddU64(a: u64, b: u64): u64 { if a + b < U64_SPAN then a + b else a + b - U64_SPAN }

  // The bytes that process_tx takes from one buffer once skip bytes of header are still to be dropped.
  function Taken(ram: seq<byte>, d: Desc, skip: nat): Option<seq<byte>> {
    if d.Writable() then None
    else if skip >= d.len then Some([])
    else if !InRange(|ram|, AddU64(d.addr, skip), d.len - skip) then None
    else Some(ram[AddU64(d.addr, skip)..AddU64(d.addr, skip) + (d.len - skip)])
  }

  // The packet gathered from the whole chain; None where a check throws.
  function Packet(ram: seq<byte>, ds: seq<Desc>): Option<seq<byte>> {
    if ds == [] then Some([]) else
      var init, d := ds[..|ds| - 1], ds[|ds| - 1];
      match Packet(ram, init)
      case None => None
      case Some(p) =>
        match Taken(ram, d, Max(0, HEADER - Total(init)))
        case None => None
        case Some(t) => Some(p + t)
  }

  // The gathered packet is the chain's content without its first twelve bytes, however it is split.
  lemma {:induction false} PacketDropsHeader(ram: seq<byte>, ds: seq<Desc>)
    requires forall d :: d in ds ==> !d.Writable() && InRange(|ram|, d.addr, d.len)
    requires |ram| < U64_SPAN
    ensures |Gather(ram, ds)| == Total(ds)
    ensures Packet(ram, ds) == Some(Gather(ram, ds)[Min(12, Total(ds))..])
  {
    hide Taken, Slice;
    GatherLength(ram, ds);
    if ds != [] {
      var init, d := ds[..|ds| - 1], ds[|ds| - 1];
      assert d in ds;
      PacketDropsHeader(ram, init);
      TakenTail(ram, d, Max(0, HEADER - Total(init)));
      DropJoin(Gather(ram, init), Slice(ram, d.addr, d.len));
    }
  }

  // When there is a packet at all: no buffer is for the device to write, and whatever a buffer holds behind the
  // header lies inside RAM, at an address that wraps at 2^64.
  lemma {:induction false} PacketIff(ram: seq<byte>, ds: seq<Desc>)
    ensures Packet(ram, ds).Some? <==>
            forall i :: 0 <= i < |ds| ==> Sendable(|ram|, ds[i], if Total(ds[..i]) < 12 then 12 - Total(ds[..i]) else 0)
  {
    hide Taken, Total, Sendable;
    if ds != [] {
      var n := |ds| - 1;
      var init := ds[..n];
      PacketIff(ram, init);
      forall i | 0 <= i < n ensures init[i] == ds[i] && init[..i] == ds[..i] {}
      TakenIff(ram, ds[n], Max(0, HEADER - Total(init)));
    }
  }

  predicate Sendable(ramSize: nat, d: Desc, skip: nat) {
    d.flags / 2 % 2 == 0 && (skip < d.len ==> (d.addr + skip) % 0x1_0000_0000_0000_0000 + (d.len - skip) <= ramSize)
  }

  lemma TakenIff(ram: seq<byte>, d: Desc, skip: nat)
    requires skip <= HEADER
    ensures Taken(ram, d, skip).Some? <==> Sendable(|ram|, d, skip)
  {
  }

  lemma TakenTail(ram: seq<byte>, d: Desc, skip: nat)
    requires !d.Writable() && InRange(|ram|, d.addr, d.len) && |ram| < U64_SPAN
    ensures Taken(ram, d, skip) == Some(Slice(ram, d.addr, d.len)[Min(skip, d.len)..])
  {
    var b := ram[d.addr..d.addr + d.len];
    if skip >= d.len {
      assert b[d.len..] == [];
    } else {
      assert b[skip..] == ram[d.addr + skip..d.addr + d.len];
    }
  }

  lemma DropJoin(g: seq<byte>, b: seq<byte>)
    ensures (g + b)[Min(HEADER, |g| + |b|)..] == g[Min(HEADER, |g|)..] + b[Min(Max(0, HEADER - |g|), |b|)..]
  {
  }

  // Both ends together: buffers that inject_rx_frame filled exactly, sent back as they are, carry exactly
  // that frame, for every frame and every way of splitting 12 + |frame| bytes over buffers.
  lemma RoundTrip(q: Layout, before: seq<byte>, after: seq<byte>, ds: seq<Desc>, frame: seq<byte>, head: u16,
      tx: seq<Desc>)
    requires q.Fits(|before|) && |before| < U64_SPAN && HEADER + |frame| < U32_SPAN
    requires Injected(q, before, after, ds, frame, head, Ok(true))
    requires Disjoint(Taking(|before|, ds, frame)) && Total(Taking(|before|, ds, frame)) == 12 + |frame|
    requires forall d :: d in Taking(|before|, ds, frame) ==> Apart(q.device, 4 + q.size * 8, d.addr, d.len)
    requires |tx| == |Taking(|before|, ds, frame)| && forall i :: 0 <= i < |tx| ==>
               var d := Taking(|before|, ds, frame)[i]; tx[i].addr == d.addr && tx[i].len == d.len && !tx[i].Writable()
    ensures Packet(after, tx) == Some(frame)
  {
    hide Fill, Packet, Disjoint, Gather, Total, Framed, PushInRam, Taking, Injected;
    var rx := Taking(|before|, ds, frame);
    Delivered(q, before, after, ds, frame, head);
    TakingInRange(|before|, ds, frame);
    SameBuffers(after, rx, tx);
    forall d | d in tx ensures !d.Writable() && InRange(|after|, d.addr, d.len) {
      var i :| 0 <= i < |tx| && tx[i] == d;
      assert rx[i] in rx;
    }
    PacketDropsHeader(after, tx);
    var g := Gather(after, tx);
    assert g[HEADER..] == g[HEADER..HEADER + |frame|];
  }

  lemma {:induction false} SameBuffers(ram: seq<byte>, a: seq<Desc>, b: seq<Desc>)
    requires |a| == |b| && forall i :: 0 <= i < |a| ==> a[i].addr == b[i].addr && a[i].len == b[i].len
    ensures Gather(ram, a) == Gather(ram, b) && Total(a) == Total(b)
  {
    if a != [] { SameBuffers(ram, a[..|a| - 1], b[..|b| - 1]); }
  }

  // ---- The device ----

  class VirtioNet {
    const mem: array<byte>
    const rx: Layout
    const tx: Layout
    var rxReady: bool
    var rxLast: u16

    ghost predicate Valid() {
      rx.Fits(mem.Length) && tx.Fits(mem.Length) && mem.Length < U64_SPAN
    }

    constructor (m: array<byte>, rxLayout: Layout, txLayout: Layout)
      requires rxLayout.Fits(m.Length) && txLayout.Fits(m.Length) && m.Length < U64_SPAN
      ensures Valid() && mem == m && rx == rxLayout && tx == txLayout && !rxReady && rxLast == 0
    {
      mem, rx, tx, rxReady, rxLast := m, rxLayout, txLayout, false, 0;
    }

    // One turn of inject_rx_frame's loop: what is left of the header, then what fits of the frame.
    method FillOne(d: Desc, frame: seq<byte>, offset: nat) returns (next: nat)
      requires Valid() && InRange(mem.Length, d.addr, d.len) && offset < HEADER + |frame|
      modifies mem
      ensures next == Min(HEADER + |frame|, offset + d.len)
      ensures mem[..] == Lay(old(mem[..]), d.addr, Framed(frame)[offset..next])
    {
      hide Framed, Splice;
      ghost var before, f := mem[..], Framed(frame);
      var descOff := 0;
      next := offset;
      if next < HEADER && descOff < d.len {
        var n := Min(d.len - descOff, HEADER - next);
        Store(mem, d.addr + descOff, Zeros(n));
        descOff, next := descOff + n, next + n;
      }
      HeaderPart(frame, offset, next);
      LayEmpty(before, d.addr, f, offset);
      assert mem[..] == Lay(before, d.addr, f[offset..next]);
      if next >= HEADER && descOff < d.len && next < HEADER + |frame| {
        var n := Min(d.len - descOff, |frame| - (next - HEADER));
        FramePart(frame, next, next + n);
        LayAppend(before, d.addr, f[offset..next], d.addr + descOff, f[next..next + n]);
        SliceJoin(f, offset, next, next + n);
        Store(mem, d.addr + descOff, frame[next - HEADER..next + n - HEADER]);
        next := next + n;
      }
    }

    // The scatter loop: how far it gets, and what RAM holds then.
    method FillChain(ds: seq<Desc>, frame: seq<byte>) returns (ok: bool, offset: nat)
      requires Valid()
      modifies mem
      ensures var k := Stop(mem.Length, ds, HEADER + |frame|, 0);
              && mem[..] == Fill(old(mem[..]), ds[..k], Framed(frame))
              && offset == Min(HEADER + |frame|, Total(ds[..k]))
              && ok == (k == |ds| || Total(ds[..k]) >= HEADER + |frame|)
    {
      hide Fill, Framed;
      ghost var before := mem[..];
      FillNothing(before, ds, Framed(frame));
      var i := 0;
      offset := 0;
      while i < |ds| && offset < HEADER + |frame|
        invariant 0 <= i <= |ds|
        invariant Stop(mem.Length, ds, HEADER + |frame|, 0) == Stop(mem.Length, ds, HEADER + |frame|, i)
        invariant offset == Min(HEADER + |frame|, Total(ds[..i]))
        invariant mem[..] == Fill(before, ds[..i], Framed(frame))
      {
        if !ds[i].Writable() || !InRange(mem.Length, ds[i].addr, ds[i].len) { return false, offset; }
        offset := FillTurn(ds, i, frame, offset, before);
        i := i + 1;
      }
      ok := true;
    }

    // The next descriptor of the scatter loop, after before has been filled up to ds[i].
    method FillTurn(ds: seq<Desc>, i: nat, frame: seq<byte>, offset: nat, ghost before: seq<byte>) returns (next: nat)
      requires Valid() && i < |ds| && InRange(mem.Length, ds[i].addr, ds[i].len)
      requires offset == Min(HEADER + |frame|, Total(ds[..i])) < HEADER + |frame|
      requires mem[..] == Fill(before, ds[..i], Framed(frame))
      modifies mem
      ensures next == Min(HEADER + |frame|, Total(ds[..i + 1]))
      ensures mem[..] == Fill(before, ds[..i + 1], Framed(frame))
    {
      hide Fill, Framed, Lay, Total;
      FillNext(before, ds, Framed(frame), i);
      FramedLength(frame);
      next := FillOne(ds[i], frame, offset);
    }

    // inject_rx_frame. Ok(true) delivers: used length 12 + len under the chain's head. Ok(false) is "no
    // buffer", or a chain too small, whose head is consumed without a used entry.
    method InjectRxFrame(frame: seq<byte>) returns (r: Result<bool>)
      requires Valid() && HEADER + |frame| < U32_SPAN
      modifies this`rxLast, mem
      ensures !(old(rxReady) && old(rxLast) != U16At(old(mem[..]), rx.driver + 2)) ==>
                r == Ok(false) && rxLast == old(rxLast) && mem[..] == old(mem[..])
      ensures old(rxReady) && old(rxLast) != U16At(old(mem[..]), rx.driver + 2) ==>
                && rxLast == Advance(old(rxLast), 1)
                && var head := HeadAt(rx.Avail(old(mem[..])), rx.size, old(rxLast));
                   match Chain(rx.Table(old(mem[..])), rx.size, head)
                   case None => r.Err? && mem[..] == old(mem[..])
                   case Some(ds) => Injected(rx, old(mem[..]), mem[..], ds, frame, head, r)
    {
      hide Fill, PushInRam, Chain, Splice, U16At, Stop, Total;
      AvailIndex(mem[..], rx);
      if !rxReady || rxLast == U16At(mem[rx.driver..rx.driver + (4 + rx.size * 2)], 2) { return Ok(false); }
      var head := HeadAt(mem[rx.driver..rx.driver + (4 + rx.size * 2)], rx.size, rxLast);
      rxLast := Advance(rxLast, 1);
      var ds :- WalkChain(mem, rx, head);
      var ok, offset := FillChain(ds, frame);
      if !ok { return Err("virtio-net rx descriptor"); }
      if offset < HEADER + |frame| { return Ok(false); }
      PushUsed(mem, rx, Entry(head, HEADER + |frame|));
      return Ok(true);
    }

    // process_tx with a TAP device: the packet that is written, and a used entry of length 0 once it is. An
    // empty packet is not written. fails says that the write failed for good.
    method ProcessTx(head: u16, fails: bool) returns (r: Result<seq<byte>>)
      requires Valid()
      modifies mem
      ensures var p := Sent(old(mem[..]), head);
              if p.None? || (p.value != [] && fails) then r.Err? && mem[..] == old(mem[..])
              else r == Ok(p.value) && mem[..] == PushInRam(old(mem[..]), tx, Entry(head, 0))
    {
      hide PushInRam, Chain, Packet;
      r := GatherTx(head);
      if r.Err? { return; }
      if |r.value| > 0 && fails { return Err("write tap"); }
      PushUsed(mem, tx, Entry(head, 0));
    }

    // The packet of the chain from head.
    ghost function Sent(ram: seq<byte>, head: u16): Option<seq<byte>>
      requires Valid() && |ram| == mem.Length
    {
      match Chain(tx.Table(ram), tx.size, head) case None => None case Some(ds) => Packet(ram, ds)
    }

    // The gather loop of process_tx.
    method GatherTx(head: u16) returns (r: Result<seq<byte>>)
      requires Valid()
      ensures match Sent(mem[..], head) case None => r.Err? case Some(p) => r == Ok(p)
    {
      hide Chain, Layout.Table, Taken;
      var ds :- WalkChain(mem, tx, head);
      var packet: seq<byte> := [];
      var skip, i := HEADER, 0;
      while i < |ds|
        invariant 0 <= i <= |ds|
        invariant skip == Max(0, HEADER - Total(ds[..i]))
        invariant Packet(mem[..], ds[..i]) == Some(packet)
      {
        PacketNext(mem[..], ds, i);
        var t := Taken(mem[..], ds[i], skip);
        if t.None? {
          PacketFails(mem[..], ds, i + 1);
          return Err("virtio-net tx descriptor");
        }
        packet := packet + t.value;
        skip := Max(0, skip - ds[i].len);
        i := i + 1;
      }
      assert ds[..i] == ds;
      return Ok(packet);
    }
  }

  lemma AvailIndex(ram: seq<byte>, q: Layout)
    requires q.Fits(|ram|)
    ensures U16At(q.Avail(ram), 2) == U16At(ram, q.driver + 2)
  {
  }

  lemma FramedLength(frame: seq<byte>)
    ensures |Framed(frame)| == HEADER + |frame|
  {
  }

  lemma HeaderPart(frame: seq<byte>, a: nat, b: nat)
    requires a <= b && (b <= HEADER || a == b <= HEADER + |frame|)
    ensures Framed(frame)[a..b] == Zeros(b - a)
  {
  }

  lemma FramePart(frame: seq<byte>, a: nat, b: nat)
    requires HEADER <= a <= b <= HEADER + |frame|
    ensures Framed(frame)[a..b] == frame[a - HEADER..b - HEADER]
  {
  }

  lemma LayEmpty(ram: seq<byte>, at: nat, f: seq<byte>, i: nat)
    requires i <= |f|
    ensures Lay(ram, at, f[i..i]) == ram
  {
  }

  lemma FillNothing(ram: seq<byte>, ds: seq<Desc>, data: seq<byte>)
    ensures Fill(ram, ds[..0], data) == ram && Total(ds[..0]) == 0
  {
  }

  lemma FillNext(ram: seq<byte>, ds: seq<Desc>, data: seq<byte>, i: nat)
    requires i < |ds|
    ensures Total(ds[..i + 1]) == Total(ds[..i]) + ds[i].len
    ensures Fill(ram, ds[..i + 1], data)
         == Lay(Fill(ram, ds[..i], data), ds[i].addr, data[Min(|data|, Total(ds[..i]))..Min(|data|, Total(ds[..i + 1]))])
  {
    assert ds[..i + 1][..i] == ds[..i];
  }

  lemma PacketNext(ram: seq<byte>, ds: seq<Desc>, i: nat)
    requires i < |ds|
    ensures Total(ds[..i + 1]) == Total(ds[..i]) + ds[i].len
    ensures Packet(ram, ds[..i + 1]) ==
            match Packet(ram, ds[..i])
            case None => None
            case Some(p) => match Taken(ram, ds[i], Max(0, HEADER - Total(ds[..i]))) case None => None
                case Some(t) => Some(p + t)
  {
    assert ds[..i + 1][..i] == ds[..i];
  }

  lemma {:induction false} PacketFails(ram: seq<byte>, ds: seq<Desc>, i: nat)
    requires i <= |ds| && Packet(ram, ds[..i]).None?
    ensures Packet(ram, ds).None?
    decreases |ds| - i
  {
    if i < |ds| {
      PacketNext(ram, ds, i);
      PacketFails(ram, ds, i + 1);
    } else {
      assert ds[..i] == ds;
    }
  }
}
