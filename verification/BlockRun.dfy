// A whole run of the virtio-blk queue over chains that keep apart (native/kvm/backend.cc:1900-1971): what the
// driver finds in RAM and on the disk afterwards, told from the RAM before the run alone.
module BlockRun {
  import opened Bytes
  import opened Virtqueue
  import opened UsedRing
  import opened Buffers
  import opened BlockRequest
  import opened BlockDevice

  // No buffer of one chain meets a buffer of the other, nor the byte at its start that may take a status.
  ghost predicate ChainsApart(ram: seq<byte>, q: Layout, a: nat, b: nat)
    requires q.Fits(|ram|)
  {
    var c := Chain(q.Table(ram), q.size, b);
    c.Some? ==> forall d :: d in c.value ==> HeadClear(ram, q, a, d.addr, Max(d.len, 1))
  }

  // The driver's side of the contract for the first n heads: the rings apart, the chains off the rings and
  // off each other.
  ghost predicate WellKept(ram: seq<byte>, q: Layout, last: u16, n: nat)
    requires q.Fits(|ram|)
  {
    && NoOverlap(ram, q, last, n)
    && forall i: nat, j: nat :: i < n && j < n && i != j ==>
         ChainsApart(ram, q, HeadOf(ram, q, last, i), HeadOf(ram, q, last, j))
  }

  lemma Fewer(ram: seq<byte>, q: Layout, last: u16, n: nat, m: nat)
    requires q.Fits(|ram|) && m <= n && NoOverlap(ram, q, last, n)
    ensures NoOverlap(ram, q, last, m)
    ensures WellKept(ram, q, last, n) ==> WellKept(ram, q, last, m)
  {
    hide ChainsApart, OffRings, RingsApart, HeadOf;
  }

  lemma KeptRings(ram: seq<byte>, q: Layout, last: u16, n: nat, m: nat)
    requires q.Fits(|ram|) && m <= n && WellKept(ram, q, last, n)
    ensures NoOverlap(ram, q, last, n) && NoOverlap(ram, q, last, m) && WellKept(ram, q, last, m)
  {
    hide NoOverlap, ChainsApart;
    Fewer(ram, q, last, n, m);
  }

  // ---- What a stretch of turns leaves alone ----

  lemma TurnFrame(w: World, q: Layout, readOnly: bool, head: u16, lo: nat, n: nat)
    requires q.Fits(|w.ram|) && lo + n <= |w.ram| && OffRings(w.ram, q, head) && HeadClear(w.ram, q, head, lo, n)
    requires Apart(q.device, 4 + q.size * 8, lo, n)
    ensures var s := Process(w, q, readOnly, head); PushInRam(s.w.ram, q, s.e)[lo..lo + n] == w.ram[lo..lo + n]
  {
    hide Process, PushInRam, HeadClear, Apart;
    var s := Process(w, q, readOnly, head);
    ProcessFrame(w, q, readOnly, head, lo, n);
    PushFrame(s.w.ram, q, s.e, lo, n);
  }

  // Turn j as a step from the state before it, which still has the driver's table.
  lemma TurnOf(w: World, q: Layout, readOnly: bool, last: u16, j: nat)
    requires q.Fits(|w.ram|) && NoOverlap(w.ram, q, last, j)
    ensures var v, head := ServeAll(w, q, readOnly, last, j).w, HeadOf(w.ram, q, last, j);
            var s := Process(v, q, readOnly, head);
            && q.Table(v.ram) == q.Table(w.ram)
            && ServeAll(w, q, readOnly, last, j + 1).w == s.w.(ram := PushInRam(s.w.ram, q, s.e))
            && ServeAll(w, q, readOnly, last, j + 1).log == ServeAll(w, q, readOnly, last, j).log + [s.e]
  {
    hide Process, PushInRam, Layout.Table, Layout.Avail, NoOverlap, Advance, HeadAt;
    RunRings(w, q, readOnly, last, j);
  }

  lemma SameHeads(a: seq<byte>, b: seq<byte>, q: Layout, head: u16, lo: nat, n: nat)
    requires q.Fits(|a|) && |a| == |b| && q.Table(a) == q.Table(b)
    ensures OffRings(a, q, head) == OffRings(b, q, head) && HeadClear(a, q, head, lo, n) == HeadClear(b, q, head, lo, n)
  {
    hide Chain, Clear;
  }

  // A region that no chain of turns i to n - 1 points into, apart from the used ring, is as it was.
  lemma {:induction false} RunFrame(w: World, q: Layout, readOnly: bool, last: u16, i: nat, n: nat, lo: nat, k: nat)
    requires q.Fits(|w.ram|) && NoOverlap(w.ram, q, last, n) && i <= n
    requires lo + k <= |w.ram| && Apart(q.device, 4 + q.size * 8, lo, k)
    requires forall j: nat :: i <= j < n ==> HeadClear(w.ram, q, HeadOf(w.ram, q, last, j), lo, k)
    ensures ServeAll(w, q, readOnly, last, n).w.ram[lo..lo + k] == ServeAll(w, q, readOnly, last, i).w.ram[lo..lo + k]
  {
    hide ServeAll, Process, PushInRam, HeadClear, OffRings, NoOverlap, HeadOf, Apart, Layout.Table;
    if i < n {
      TurnOverlap(w.ram, q, last, n);
      RunFrame(w, q, readOnly, last, i, n - 1, lo, k);
      TurnOf(w, q, readOnly, last, n - 1);
      var v, head := ServeAll(w, q, readOnly, last, n - 1).w, HeadOf(w.ram, q, last, n - 1);
      SameHeads(w.ram, v.ram, q, head, lo, k);
      TurnFrame(v, q, readOnly, head, lo, k);
    }
  }

  // The start of a buffer of chain j meets neither the used ring nor any other chain.
  lemma OthersClear(ram: seq<byte>, q: Layout, last: u16, n: nat, j: nat, d: Desc, k: nat)
    requires q.Fits(|ram|) && WellKept(ram, q, last, n) && j < n && k <= Max(d.len, 1)
    requires var c := Chain(q.Table(ram), q.size, HeadOf(ram, q, last, j)); c.Some? && d in c.value
    ensures Apart(q.device, 4 + q.size * 8, d.addr, k)
    ensures forall i: nat :: i < n && i != j ==> HeadClear(ram, q, HeadOf(ram, q, last, i), d.addr, k)
  {
    hide Chain, HeadOf, RingsApart;
    assert OffRings(ram, q, HeadOf(ram, q, last, j));
    forall i: nat | i < n && i != j ensures HeadClear(ram, q, HeadOf(ram, q, last, i), d.addr, k) {
      assert ChainsApart(ram, q, HeadOf(ram, q, last, i), HeadOf(ram, q, last, j));
    }
  }

  // Such a buffer is as before the run when its turn comes.
  lemma BufferBefore(w: World, q: Layout, readOnly: bool, last: u16, n: nat, j: nat, d: Desc, k: nat)
    requires q.Fits(|w.ram|) && WellKept(w.ram, q, last, n) && j < n && k <= Max(d.len, 1) && d.addr + k <= |w.ram|
    requires var c := Chain(q.Table(w.ram), q.size, HeadOf(w.ram, q, last, j)); c.Some? && d in c.value
    ensures ServeAll(w, q, readOnly, last, j).w.ram[d.addr..d.addr + k] == w.ram[d.addr..d.addr + k]
  {
    hide ServeAll, HeadClear, HeadOf, Apart, Layout.Table, Chain, WellKept, NoOverlap;
    OthersClear(w.ram, q, last, n, j, d, k);
    KeptRings(w.ram, q, last, n, j);
    NoTurn(w, q, readOnly, last);
    RunFrame(w, q, readOnly, last, 0, j, d.addr, k);
  }

  // And at the end it is as its turn left it.
  lemma BufferAfter(w: World, q: Layout, readOnly: bool, last: u16, n: nat, j: nat, d: Desc, k: nat)
    requires q.Fits(|w.ram|) && WellKept(w.ram, q, last, n) && j < n && k <= Max(d.len, 1) && d.addr + k <= |w.ram|
    requires var c := Chain(q.Table(w.ram), q.size, HeadOf(w.ram, q, last, j)); c.Some? && d in c.value
    ensures ServeAll(w, q, readOnly, last, n).w.ram[d.addr..d.addr + k]
         == Process(ServeAll(w, q, readOnly, last, j).w, q, readOnly, HeadOf(w.ram, q, last, j)).w.ram[d.addr..d.addr + k]
  {
    hide ServeAll, Process, PushInRam, HeadClear, HeadOf, Apart, Layout.Table, Chain, WellKept, NoOverlap;
    OthersClear(w.ram, q, last, n, j, d, k);
    KeptRings(w.ram, q, last, n, j);
    RunFrame(w, q, readOnly, last, j + 1, n, d.addr, k);
    TurnOf(w, q, readOnly, last, j);
    var s := Process(ServeAll(w, q, readOnly, last, j).w, q, readOnly, HeadOf(w.ram, q, last, j));
    PushFrame(s.w.ram, q, s.e, d.addr, k);
  }

  lemma NoTurn(w: World, q: Layout, readOnly: bool, last: u16)
    requires q.Fits(|w.ram|)
    ensures ServeAll(w, q, readOnly, last, 0) == Run(w, [])
  {
  }

  // ---- The request of a turn ----

  lemma SameParse(a: seq<byte>, b: seq<byte>, q: Layout, head: nat)
    requires q.Fits(|a|) && |a| == |b| && q.Table(a) == q.Table(b)
    requires var c := Chain(q.Table(a), q.size, head);
             c.Some? && c.value[0].len >= 16 && c.value[0].addr + 16 <= |a| ==>
               b[c.value[0].addr..c.value[0].addr + 16] == a[c.value[0].addr..c.value[0].addr + 16]
    ensures Parse(a, q, head) == Parse(b, q, head)
  {
    hide Chain, Layout.Table, U32At, U64At;
    var c := Chain(q.Table(a), q.size, head);
    if c.Some? && c.value[0].len >= 16 && c.value[0].addr + 16 <= |a| {
      var at := c.value[0].addr;
      HeaderFields(a, at);
      HeaderFields(b, at);
    }
  }

  lemma HeaderFields(m: seq<byte>, at: nat)
    requires at + 16 <= |m|
    ensures U32At(m, at) == U32At(m[at..at + 16], 0) && U64At(m, at + 8) == U64At(m[at..at + 16], 8)
  {
  }

  lemma ParsedInChain(ram: seq<byte>, q: Layout, head: nat)
    requires q.Fits(|ram|) && Parse(ram, q, head).Some?
    ensures var c, req := Chain(q.Table(ram), q.size, head), Parse(ram, q, head).value;
            c.Some? && req.status in c.value && forall d :: d in req.data ==> d in c.value
  {
    hide Chain, Layout.Table, U32At, U64At;
  }

  // When its turn comes, a request and the buffers of its data are what the driver wrote before the run.
  lemma RequestKept(w: World, q: Layout, readOnly: bool, last: u16, n: nat, j: nat)
    requires q.Fits(|w.ram|) && WellKept(w.ram, q, last, n) && j < n
    ensures var v, head := ServeAll(w, q, readOnly, last, j).w, HeadOf(w.ram, q, last, j);
            && q.Table(v.ram) == q.Table(w.ram) && OffRings(v.ram, q, head)
            && Parse(v.ram, q, head) == Parse(w.ram, q, head)
            && forall k: nat :: Parse(w.ram, q, head).Some? && k <= |Parse(w.ram, q, head).value.data| ==>
                 var ds := Parse(w.ram, q, head).value.data[..k]; Gather(v.ram, ds) == Gather(w.ram, ds)
  {
    hide ServeAll, Process, OffRings, HeadOf, Layout.Table, Chain, ChainsApart, Parse, Gather, Slice, WellKept;
    var v, head := ServeAll(w, q, readOnly, last, j).w, HeadOf(w.ram, q, last, j);
    WellKeptTurn(w.ram, q, last, n, j);
    TurnOf(w, q, readOnly, last, j);
    SameHeads(w.ram, v.ram, q, head, 0, 0);
    var c := Chain(q.Table(w.ram), q.size, head);
    if c.Some? && c.value[0].len >= 16 && c.value[0].addr + 16 <= |w.ram| {
      BufferBefore(w, q, readOnly, last, n, j, c.value[0], 16);
    }
    SameParse(w.ram, v.ram, q, head);
    if Parse(w.ram, q, head).Some? {
      var ds := Parse(w.ram, q, head).value.data;
      ParsedInChain(w.ram, q, head);
      forall k: nat | k <= |ds| ensures Gather(v.ram, ds[..k]) == Gather(w.ram, ds[..k]) {
        forall d | d in ds[..k] ensures Slice(v.ram, d.addr, d.len) == Slice(w.ram, d.addr, d.len) {
          assert d in ds;
          SameBuffers(w, q, readOnly, last, n, j, d);
        }
        GatherFrame(w.ram, v.ram, ds[..k]);
      }
    }
  }

  // The two agree on the buffer, and on the byte at its start.
  predicate SameBuffer(a: seq<byte>, b: seq<byte>, d: Desc)
    requires |a| == |b|
  {
    Slice(a, d.addr, d.len) == Slice(b, d.addr, d.len) && (d.addr < |a| ==> a[d.addr] == b[d.addr])
  }

  lemma BufferOf(a: seq<byte>, b: seq<byte>, d: Desc)
    requires |a| == |b| && (d.addr + d.len <= |a| ==> a[d.addr..d.addr + d.len] == b[d.addr..d.addr + d.len])
    requires d.addr + 1 <= |a| ==> a[d.addr..d.addr + 1] == b[d.addr..d.addr + 1]
    ensures SameBuffer(a, b, d)
  {
    if d.addr < |a| { assert a[d.addr..d.addr + 1][0] == b[d.addr..d.addr + 1][0]; }
  }

  lemma SameBuffers(w: World, q: Layout, readOnly: bool, last: u16, n: nat, j: nat, d: Desc)
    requires q.Fits(|w.ram|) && WellKept(w.ram, q, last, n) && j < n
    requires var c := Chain(q.Table(w.ram), q.size, HeadOf(w.ram, q, last, j)); c.Some? && d in c.value
    ensures var v := ServeAll(w, q, readOnly, last, j).w;
      && SameBuffer(v.ram, w.ram, d)
      && SameBuffer(Process(v, q, readOnly, HeadOf(w.ram, q, last, j)).w.ram, ServeAll(w, q, readOnly, last, n).w.ram, d)
  {
    hide ServeAll, Process, HeadOf, WellKept, Chain, Layout.Table, SameBuffer;
    var v := ServeAll(w, q, readOnly, last, j).w;
    if d.addr + d.len <= |w.ram| {
      BufferBefore(w, q, readOnly, last, n, j, d, d.len);
      BufferAfter(w, q, readOnly, last, n, j, d, d.len);
    }
    if d.addr + 1 <= |w.ram| {
      BufferBefore(w, q, readOnly, last, n, j, d, 1);
      BufferAfter(w, q, readOnly, last, n, j, d, 1);
    }
    BufferOf(v.ram, w.ram, d);
    BufferOf(Process(v, q, readOnly, HeadOf(w.ram, q, last, j)).w.ram, ServeAll(w, q, readOnly, last, n).w.ram, d);
  }

  lemma WellKeptTurn(ram: seq<byte>, q: Layout, last: u16, n: nat, j: nat)
    requires q.Fits(|ram|) && WellKept(ram, q, last, n) && j < n
    ensures NoOverlap(ram, q, last, j) && OffRings(ram, q, HeadOf(ram, q, last, j))
  {
    hide OffRings, HeadOf, ChainsApart, RingsApart;
  }

  // The used entry and the status depend on the request and on the two sizes only, and the disk on the
  // request, the gathered bytes and the disk before.
  lemma SameOutcome(v: World, w: World, q: Layout, readOnly: bool, head: u16)
    requires q.Fits(|w.ram|) && |v.ram| == |w.ram| && |v.disk| == |w.disk|
    requires Parse(v.ram, q, head) == Parse(w.ram, q, head)
    ensures Process(v, q, readOnly, head).e == Process(w, q, readOnly, head).e
    ensures Process(v, q, readOnly, head).code == Process(w, q, readOnly, head).code
    ensures Process(v, q, readOnly, head).w.disk ==
            match Parse(w.ram, q, head)
            case None => v.disk
            case Some(req) =>
              if req.kind != 1 then v.disk else
                Lay(v.disk, req.Offset(), Gather(v.ram, req.data[..Passing(|w.ram|, |w.disk|, readOnly, req, 0)]))
  {
    hide Parse, Gather, Scatter, Lay, Splice, Fail, Count32, Total;
  }

  // ---- The run ----

  // The disk after n turns: every write request applied, in turn, as far as it passed its checks.
  ghost function DiskAfter(w: World, q: Layout, readOnly: bool, last: u16, n: nat): (disk: seq<byte>)
    requires q.Fits(|w.ram|)
    ensures |disk| == |w.disk|
  {
    if n == 0 then w.disk else
      var disk := DiskAfter(w, q, readOnly, last, n - 1);
      match Parse(w.ram, q, HeadOf(w.ram, q, last, n - 1))
      case None => disk
      case Some(req) =>
        if req.kind != 1 then disk else
          Lay(disk, req.Offset(), Gather(w.ram, req.data[..Passing(|w.ram|, |w.disk|, readOnly, req, 0)]))
  }

  // The disk is that fold over the driver's RAM, and the used entries are those of each request on its own.
  lemma {:induction false} RunDisk(w: World, q: Layout, readOnly: bool, last: u16, n: nat)
    requires q.Fits(|w.ram|) && WellKept(w.ram, q, last, n)
    ensures var r := ServeAll(w, q, readOnly, last, n);
            && r.w.disk == DiskAfter(w, q, readOnly, last, n) && |r.log| == n
            && forall j: nat :: j < n ==> r.log[j] == Process(w, q, readOnly, HeadOf(w.ram, q, last, j)).e
  {
    hide ServeAll, Process, HeadOf, Parse, Gather, Lay, WellKept, NoOverlap, OffRings, Layout.Table, Passing, PushInRam;
    if n == 0 {
      NoTurn(w, q, readOnly, last);
    } else {
      KeptRings(w.ram, q, last, n, n - 1);
      RunDisk(w, q, readOnly, last, n - 1);
      RequestKept(w, q, readOnly, last, n, n - 1);
      TurnOf(w, q, readOnly, last, n - 1);
      SameOutcome(ServeAll(w, q, readOnly, last, n - 1).w, w, q, readOnly, HeadOf(w.ram, q, last, n - 1));
    }
  }

  // What the driver finds for one head: the status that its request deserves, and for a read into separate
  // buffers, up to the first that cannot be filled, the stretch of the disk as it stood at that turn; for a
  // chain that is no request, the error status.
  ghost predicate Answered(w: World, q: Layout, readOnly: bool, head: u16, disk: seq<byte>, ram: seq<byte>)
    requires q.Fits(|w.ram|) && |ram| == |w.ram| && |disk| == |w.disk|
  {
    match Parse(w.ram, q, head)
    case None =>
      var c := Chain(q.Table(w.ram), q.size, head);
      c.Some? && c.value[|c.value| - 1].addr < |ram| ==> ram[c.value[|c.value| - 1].addr] == 1
    case Some(req) =>
      && (req.status.addr < |ram| ==> Deserves(|ram|, |disk|, readOnly, req, ram[req.status.addr]))
      && (SeparateBuffers(req) ==> BuffersHold(disk, ram, req))
  }

  ghost predicate BuffersHold(disk: seq<byte>, ram: seq<byte>, req: Request) {
    forall i :: 0 <= i < |req.data| && (forall j :: 0 <= j <= i ==> Fillable(|ram|, |disk|, req, j)) ==>
      BufferHolds(disk, ram, req, i)
  }

  // The used entry of one head: its own index, and the byte count of a request that was carried out.
  ghost predicate Billed(w: World, q: Layout, readOnly: bool, head: u16, e: Entry)
    requires q.Fits(|w.ram|)
  {
    && e.id == head
    && match Parse(w.ram, q, head)
       case None => e.written == 0
       case Some(req) =>
         req.status.addr < |w.ram| && !Deserves(|w.ram|, |w.disk|, readOnly, req, 1) ==> Counts(req, e.written)
  }

  lemma TurnBills(w: World, q: Layout, readOnly: bool, head: u16)
    requires q.Fits(|w.ram|)
    ensures Billed(w, q, readOnly, head, Process(w, q, readOnly, head).e)
  {
    hide Parse, Fail, Transfer, Deserves, Counts;
    if Parse(w.ram, q, head).Some? { StatusIff(w, q, readOnly, head); }
  }

  ghost predicate SeparateBuffers(req: Request) {
    req.kind == 0 && Disjoint(req.data) && forall d :: d in req.data ==> Apart(req.status.addr, 1, d.addr, d.len)
  }

  // Right after its turn.
  lemma TurnAnswers(v: World, q: Layout, readOnly: bool, head: u16)
    requires q.Fits(|v.ram|) && OffRings(v.ram, q, head)
    ensures Answered(v, q, readOnly, head, v.disk, Process(v, q, readOnly, head).w.ram)
  {
    hide Process, Parse, Chain, Layout.Table, BuffersHold, Disjoint, Apart, Fail, Deserves, Lay, Transfer;
    var p := Parse(v.ram, q, head);
    if p.None? {
      FailedByte(v, q, readOnly, head);
    } else {
      ParsedClear(v.ram, q, head, q.desc, q.size * 16);
      StatusWritten(v, q, readOnly, head);
      StatusIff(v, q, readOnly, head);
      if SeparateBuffers(p.value) { TurnFills(v, q, readOnly, head); }
    }
  }

  lemma TurnFills(v: World, q: Layout, readOnly: bool, head: u16)
    requires q.Fits(|v.ram|) && OffRings(v.ram, q, head) && Parse(v.ram, q, head).Some?
    requires SeparateBuffers(Parse(v.ram, q, head).value)
    ensures BuffersHold(v.disk, Process(v, q, readOnly, head).w.ram, Parse(v.ram, q, head).value)
  {
    hide Process, Parse, Chain, Layout.Table, Filled, Disjoint, Passing, Apart, Fillable, BufferHolds, Total, Gather;
    var req, ram' := Parse(v.ram, q, head).value, Process(v, q, readOnly, head).w.ram;
    var k := Passing(|v.ram|, |v.disk|, readOnly, req, 0);
    ReadStatus(v, q, readOnly, head);
    ReadOutcome(v, q, readOnly, head);
    assert Filled(v.disk, ram', req, k) by { if k == |req.data| { assert req.data[..k] == req.data; } }
    PassedPrefix(v, readOnly, req, k);
    forall i | 0 <= i < |req.data| && forall j :: 0 <= j <= i ==> Fillable(|ram'|, |v.disk|, req, j)
      ensures BufferHolds(v.disk, ram', req, i)
    {
      assert i < k by {
        PassingFrom(|v.ram|, |v.disk|, readOnly, req, 0);
        assert k < |req.data| ==> !Fillable(|ram'|, |v.disk|, req, k);
      }
      forall j | 0 <= j < k ensures InRange(|ram'|, req.data[j].addr, req.data[j].len) {
        assert req.data[..k][j] in req.data[..k];
      }
      FilledBuffer(v.disk, ram', req, k, i);
    }
  }

  lemma FailedByte(v: World, q: Layout, readOnly: bool, head: u16)
    requires q.Fits(|v.ram|) && Parse(v.ram, q, head).None?
    ensures var c, ram := Chain(q.Table(v.ram), q.size, head), Process(v, q, readOnly, head).w.ram;
            c.Some? && c.value[|c.value| - 1].addr < |ram| ==> ram[c.value[|c.value| - 1].addr] == 1
  {
    hide Chain, Layout.Table, Lay, Parse;
    var c := Chain(q.Table(v.ram), q.size, head);
    if c.Some? { LayByte(v.ram, c.value[|c.value| - 1].addr, 1); }
  }

  // An answer carries over to RAM that agrees on the chain's buffers.
  lemma AnswerKept(v: World, w: World, q: Layout, readOnly: bool, head: u16, a: seq<byte>, b: seq<byte>)
    requires q.Fits(|w.ram|) && |v.ram| == |w.ram| == |a| == |b| && |v.disk| == |w.disk|
    requires q.Table(v.ram) == q.Table(w.ram) && Parse(v.ram, q, head) == Parse(w.ram, q, head)
    requires var c := Chain(q.Table(w.ram), q.size, head);
             c.Some? ==> forall d :: d in c.value ==> SameBuffer(a, b, d)
    requires Answered(v, q, readOnly, head, v.disk, a)
    ensures Answered(w, q, readOnly, head, v.disk, b)
  {
    hide Parse, Chain, Layout.Table, Disjoint, Apart, Slice, Fillable, Deserves, Total;
    var c := Chain(q.Table(w.ram), q.size, head);
    if Parse(w.ram, q, head).None? {
      assert c.Some? ==> c.value[|c.value| - 1] in c.value;
    } else {
      var req := Parse(w.ram, q, head).value;
      ParsedInChain(w.ram, q, head);
      forall i | 0 <= i < |req.data| && BufferHolds(v.disk, a, req, i) ensures BufferHolds(v.disk, b, req, i) {
        assert SameBuffer(a, b, req.data[i]);
        SliceIs(a, req.data[i]);
        SliceIs(b, req.data[i]);
      }
    }
  }

  // At the end of a run over chains that keep apart, every head has its answer and its used entry, and the
  // disk is the fold of the writes.
  lemma RunOutcome(w: World, q: Layout, readOnly: bool, last: u16, n: nat)
    requires q.Fits(|w.ram|) && WellKept(w.ram, q, last, n)
    ensures var r := ServeAll(w, q, readOnly, last, n);
            && r.w.disk == DiskAfter(w, q, readOnly, last, n) && |r.log| == n
            && forall j: nat :: j < n ==>
                 && Billed(w, q, readOnly, HeadOf(w.ram, q, last, j), r.log[j])
                 && Answered(w, q, readOnly, HeadOf(w.ram, q, last, j), DiskAfter(w, q, readOnly, last, j), r.w.ram)
  {
    hide ServeAll, DiskAfter, Process, HeadOf, WellKept, Answered, Billed;
    var r := ServeAll(w, q, readOnly, last, n);
    RunDisk(w, q, readOnly, last, n);
    forall j: nat | j < n
      ensures Answered(w, q, readOnly, HeadOf(w.ram, q, last, j), DiskAfter(w, q, readOnly, last, j), r.w.ram)
    {
      HeadAnswered(w, q, readOnly, last, n, j);
    }
    forall j: nat | j < n ensures Billed(w, q, readOnly, HeadOf(w.ram, q, last, j), r.log[j]) {
      TurnBills(w, q, readOnly, HeadOf(w.ram, q, last, j));
    }
  }

  lemma HeadAnswered(w: World, q: Layout, readOnly: bool, last: u16, n: nat, j: nat)
    requires q.Fits(|w.ram|) && WellKept(w.ram, q, last, n) && j < n
    ensures Answered(w, q, readOnly, HeadOf(w.ram, q, last, j), DiskAfter(w, q, readOnly, last, j),
                     ServeAll(w, q, readOnly, last, n).w.ram)
  {
    hide ServeAll, DiskAfter, Process, HeadOf, WellKept, Answered, Parse, Chain, OffRings, Layout.Table;
    hide SameBuffer;
    var v, head := ServeAll(w, q, readOnly, last, j).w, HeadOf(w.ram, q, last, j);
    var a, b := Process(v, q, readOnly, head).w.ram, ServeAll(w, q, readOnly, last, n).w.ram;
    KeptRings(w.ram, q, last, n, j);
    RunDisk(w, q, readOnly, last, j);
    RequestKept(w, q, readOnly, last, n, j);
    TurnAnswers(v, q, readOnly, head);
    var c := Chain(q.Table(w.ram), q.size, head);
    if c.Some? {
      forall d | d in c.value ensures SameBuffer(a, b, d) { SameBuffers(w, q, readOnly, last, n, j, d); }
    }
    AnswerKept(v, w, q, readOnly, head, a, b);
  }
}
