// One virtio-blk request as a function of guest RAM and the flat disk, and what its status byte means
// (native/kvm/backend.cc:1909-1971; virtio 1.1 section 5.2.6).
module BlockRequest {
  import opened Bytes
  import opened Virtqueue
  import opened UsedRing
  import opened Buffers

  datatype World = World(ram: seq<byte>, disk: seq<byte>)

  datatype Request = Request(kind: u32, sector: u64, data: seq<Desc>, status: Desc) {
    function Offset(): nat { sector * 512 }
  }

  const DEVICE_ID: seq<byte> := [110, 111, 100, 101, 45, 118, 109, 109, 0]   // "node-vmm"

  // The chain checks that come before any data moves; None where one of them throws.
  function Parse(ram: seq<byte>, q: Layout, head: nat): Option<Request>
    requires q.Fits(|ram|)
  {
    match Chain(q.Table(ram), q.size, head)
    case None => None
    case Some(c) =>
      if |c| < 2 || c[0].len < 16 || !InRange(|ram|, c[0].addr, 16) then None else
        var status := c[|c| - 1];
        if !status.Writable() || status.len < 1 then None
        else Some(Request(U32At(ram, c[0].addr), U64At(ram, c[0].addr + 8), c[1..|c| - 1], status))
  }

  // ---- Data descriptors ----

  // uint32_t addition, which wraps.
  function AddU32(a: u32, b: u32): u32 { if a + b < U32_SPAN then a + b else a + b - U32_SPAN }

  // The byte count as the 32-bit counter keeps it.
  function Count32(ds: seq<Desc>): u32 {
    if ds == [] then 0 else AddU32(Count32(ds[..|ds| - 1]), ds[|ds| - 1].len)
  }

  lemma {:induction false} Count32IsTotal(ds: seq<Desc>)
    ensures Count32(ds) == Total(ds) % 0x1_0000_0000
  {
    hide AddU32;
    if ds != [] {
      Count32IsTotal(ds[..|ds| - 1]);
      AddU32IsMod(Total(ds[..|ds| - 1]), ds[|ds| - 1].len);
    }
  }

  lemma AddU32IsMod(t: nat, x: u32)
    ensures AddU32(t % 0x1_0000_0000, x) == (t + x) % 0x1_0000_0000
  {
  }

  // RAM after the buffers of ds have been filled, in order, from the disk bytes at off.
  function Scatter(ram: seq<byte>, disk: seq<byte>, ds: seq<Desc>, off: nat): (r: seq<byte>)
    ensures |r| == |ram|
  {
    if ds == [] then ram else
      var init, d := ds[..|ds| - 1], ds[|ds| - 1];
      Lay(Scatter(ram, disk, init, off), d.addr, Slice(disk, off + Total(init), d.len))
  }

  // The checks that one data descriptor passes before its bytes move; off is its place on the disk.
  predicate Passes(ramSize: nat, diskSize: nat, readOnly: bool, kind: u32, d: Desc, off: nat) {
    && d.Writable() == (kind == 0)
    && d.len % 512 == 0
    && InRange(ramSize, d.addr, d.len)
    && InRange(diskSize, off, d.len)
    && (kind == 1 ==> !readOnly)
  }

  predicate GoesThrough(ramSize: nat, diskSize: nat, readOnly: bool, req: Request, i: nat)
    requires i < |req.data|
  {
    Passes(ramSize, diskSize, readOnly, req.kind, req.data[i], req.Offset() + Total(req.data[..i]))
  }

  // How many leading data descriptors go through, counting from the i-th.
  function Passing(ramSize: nat, diskSize: nat, readOnly: bool, req: Request, i: nat): (k: nat)
    requires i <= |req.data|
    ensures i <= k <= |req.data|
    ensures forall j :: i <= j < k ==> GoesThrough(ramSize, diskSize, readOnly, req, j)
    decreases |req.data| - i
  {
    if i == |req.data| || !GoesThrough(ramSize, diskSize, readOnly, req, i) then i
    else Passing(ramSize, diskSize, readOnly, req, i + 1)
  }

  // ---- The whole request ----

  datatype Moved = Moved(w: World, written: u32, code: byte)

  // Everything up to the status byte. Code 1 stands for the exception thrown on the way.
  function Transfer(w: World, readOnly: bool, req: Request): (m: Moved)
    ensures |m.w.ram| == |w.ram| && |m.w.disk| == |w.disk|
  {
    if req.kind == 0 then
      var k := Passing(|w.ram|, |w.disk|, readOnly, req, 0);
      Moved(w.(ram := Scatter(w.ram, w.disk, req.data[..k], req.Offset())),
            Count32(req.data[..k]), if k == |req.data| then 0 else 1)
    else if req.kind == 1 then
      var k := Passing(|w.ram|, |w.disk|, readOnly, req, 0);
      Moved(w.(disk := Lay(w.disk, req.Offset(), Gather(w.ram, req.data[..k]))), 0, if k == |req.data| then 0 else 1)
    else if req.kind == 4 then
      Moved(w, 0, 0)
    else if req.kind == 8 then
      if req.data == [] then Moved(w, 0, 0) else
        var n := Min(req.data[0].len, |DEVICE_ID|);
        if !InRange(|w.ram|, req.data[0].addr, n) then Moved(w, 0, 1)
        else Moved(w.(ram := Splice(w.ram, req.data[0].addr, DEVICE_ID[..n])), n, 0)
    else
      Moved(w, 0, 2)
  }

  // The catch block: walk the chain again and put status 1 into its last descriptor if that can be done.
  function Fail(ram: seq<byte>, q: Layout, head: nat): (r: seq<byte>)
    requires q.Fits(|ram|)
    ensures |r| == |ram|
  {
    match Chain(q.Table(ram), q.size, head)
    case None => ram
    case Some(c) => Lay(ram, c[|c| - 1].addr, [1])
  }

  datatype Served = Served(w: World, e: Entry, code: byte)

  // process_request before push_used: the new world, the used entry to push, the final status code.
  function Process(w: World, q: Layout, readOnly: bool, head: u16): (s: Served)
    requires q.Fits(|w.ram|)
    ensures |s.w.ram| == |w.ram| && |s.w.disk| == |w.disk|
  {
    match Parse(w.ram, q, head)
    case None => Served(w.(ram := Fail(w.ram, q, head)), Entry(head, 0), 1)
    case Some(req) =>
      var m := Transfer(w, readOnly, req);
      if m.code != 1 && InRange(|w.ram|, req.status.addr, 1) then
        Served(m.w.(ram := Splice(m.w.ram, req.status.addr, [m.code])), Entry(head, AddU32(m.written, 1)), m.code)
      else
        Served(m.w.(ram := Fail(m.w.ram, q, head)), Entry(head, m.written), 1)
  }

  // ---- When a request succeeds, told from the fields that the driver wrote ----

  // The driver's header and status descriptor, as bytes: type, four reserved bytes, sector. A chain is a request
  // exactly when it has two descriptors, a header of 16 bytes in RAM, and a last descriptor that the device may
  // write and that is not empty.
  lemma ParseIff(ram: seq<byte>, q: Layout, head: nat, c: seq<Desc>)
    requires q.Fits(|ram|) && Chain(q.Table(ram), q.size, head) == Some(c)
    ensures Parse(ram, q, head).Some? <==>
            && |c| >= 2 && c[0].len >= 16 && c[0].addr + 16 <= |ram|
            && c[|c| - 1].flags / 2 % 2 == 1 && c[|c| - 1].len >= 1
    ensures Parse(ram, q, head).Some? ==>
            var req := Parse(ram, q, head).value;
            && ram[c[0].addr..c[0].addr + 4] == Le32(req.kind)
            && ram[c[0].addr + 8..c[0].addr + 16] == Le64(req.sector)
            && [c[0]] + req.data + [req.status] == c
  {
    hide Chain, Le32, Le64, U32At, U64At;
    if Parse(ram, q, head).Some? {
      var at: nat := c[0].addr;
      FieldBack32(ram, at);
      FieldBack64(ram, at + 8);
      assert c == [c[0]] + c[1..|c| - 1] + [c[|c| - 1]];
    }
  }

  // A buffer of whole sectors inside RAM, whose stretch of the disk exists.
  predicate DataOk(ramSize: nat, diskSize: nat, req: Request, i: nat)
    requires i < |req.data|
  {
    && req.data[i].len % 512 == 0 && req.data[i].addr + req.data[i].len <= ramSize
    && req.sector * 512 + Total(req.data[..i]) + req.data[i].len <= diskSize
  }

  // A buffer that a read can fill: the device may write it.
  predicate Fillable(ramSize: nat, diskSize: nat, req: Request, i: nat)
    requires i < |req.data|
  {
    DataOk(ramSize, diskSize, req, i) && req.data[i].flags / 2 % 2 == 1
  }

  predicate Readable(ramSize: nat, diskSize: nat, req: Request) {
    forall i :: 0 <= i < |req.data| ==> Fillable(ramSize, diskSize, req, i)
  }

  // A buffer that a write can take from: the device must not write it, and the disk may be written.
  predicate Applicable(ramSize: nat, diskSize: nat, readOnly: bool, req: Request, i: nat)
    requires i < |req.data|
  {
    DataOk(ramSize, diskSize, req, i) && !readOnly && req.data[i].flags / 2 % 2 == 0
  }

  predicate Writeable(ramSize: nat, diskSize: nat, readOnly: bool, req: Request) {
    forall i :: 0 <= i < |req.data| ==> Applicable(ramSize, diskSize, readOnly, req, i)
  }

  // What the request deserves when its status byte lies in RAM: for a read, a write, a flush, a device id and
  // anything else.
  predicate Deserves(ramSize: nat, diskSize: nat, readOnly: bool, req: Request, code: byte) {
    && (req.kind == 0 ==> code == if Readable(ramSize, diskSize, req) then 0 else 1)
    && (req.kind == 1 ==> code == if Writeable(ramSize, diskSize, readOnly, req) then 0 else 1)
    && (req.kind == 4 ==> code == 0)
    && (req.kind == 8 ==> code == if req.data == [] || req.data[0].addr + Min(req.data[0].len, 9) <= ramSize then 0 else 1)
    && (req.kind !in {0, 1, 4, 8} ==> code == 2)
  }

  // The request's own part of the used entry: its bytes plus one for the status.
  predicate Counts(req: Request, written: u32) {
    && (req.kind == 0 ==> written == (Total(req.data) + 1) % 0x1_0000_0000)
    && (req.kind == 8 ==> written == 1 + if req.data == [] then 0 else Min(req.data[0].len, 9))
    && (req.kind !in {0, 8} ==> written == 1)
  }

  lemma PassesRaw(ramSize: nat, diskSize: nat, readOnly: bool, req: Request, i: nat)
    requires i < |req.data|
    ensures var passes := Passes(ramSize, diskSize, readOnly, req.kind, req.data[i], req.Offset() + Total(req.data[..i]));
            && (req.kind == 0 ==> passes == Fillable(ramSize, diskSize, req, i))
            && (req.kind == 1 ==> passes == Applicable(ramSize, diskSize, readOnly, req, i))
  {
    hide Total;
  }

  // The data descriptors that go through are those before the first that the raw fields rule out.
  lemma {:induction false} PassingFrom(ramSize: nat, diskSize: nat, readOnly: bool, req: Request, from: nat)
    requires req.kind <= 1 && from <= |req.data|
    ensures var k := Passing(ramSize, diskSize, readOnly, req, from);
            && (forall i :: from <= i < k ==> Good(ramSize, diskSize, readOnly, req, i))
            && (k < |req.data| ==> !Good(ramSize, diskSize, readOnly, req, k))
    decreases |req.data| - from
  {
    hide Total, Passes, Fillable, Applicable;
    if from < |req.data| {
      PassesRaw(ramSize, diskSize, readOnly, req, from);
      PassingFrom(ramSize, diskSize, readOnly, req, from + 1);
    }
  }

  predicate Good(ramSize: nat, diskSize: nat, readOnly: bool, req: Request, i: nat)
    requires i < |req.data| && req.kind <= 1
  {
    if req.kind == 0 then Fillable(ramSize, diskSize, req, i) else Applicable(ramSize, diskSize, readOnly, req, i)
  }

  lemma PassesAll(ramSize: nat, diskSize: nat, readOnly: bool, req: Request)
    requires req.kind <= 1
    ensures Passing(ramSize, diskSize, readOnly, req, 0) == |req.data| <==>
            if req.kind == 0 then Readable(ramSize, diskSize, req) else Writeable(ramSize, diskSize, readOnly, req)
  {
    hide Passing, Fillable, Applicable;
    PassingFrom(ramSize, diskSize, readOnly, req, 0);
    var k := Passing(ramSize, diskSize, readOnly, req, 0);
    if k == |req.data| {
      forall i | 0 <= i < |req.data|
        ensures if req.kind == 0 then Fillable(ramSize, diskSize, req, i)
                else Applicable(ramSize, diskSize, readOnly, req, i)
      {
        assert Good(ramSize, diskSize, readOnly, req, i);
      }
    } else {
      assert !Good(ramSize, diskSize, readOnly, req, k);
    }
  }

  // Every parsed request gets the status that its own fields deserve, and 1 when its status byte lies outside
  // RAM; the used entry has its head, and on success its count.
  lemma StatusIff(w: World, q: Layout, readOnly: bool, head: u16)
    requires q.Fits(|w.ram|) && Parse(w.ram, q, head).Some?
    ensures var s, req := Process(w, q, readOnly, head), Parse(w.ram, q, head).value;
            var room := req.status.addr < |w.ram|;
            && (req.kind == 0 ==> s.code == if room && Readable(|w.ram|, |w.disk|, req) then 0 else 1)
            && (req.kind == 1 ==> s.code == if room && Writeable(|w.ram|, |w.disk|, readOnly, req) then 0 else 1)
            && (req.kind == 4 ==> s.code == if room then 0 else 1)
            && (req.kind == 8 ==>
                 var idFits := req.data == [] || req.data[0].addr + Min(req.data[0].len, 9) <= |w.ram|;
                 s.code == if room && idFits then 0 else 1)
            && (req.kind !in {0, 1, 4, 8} ==> s.code == if room then 2 else 1)
            && (room ==> Deserves(|w.ram|, |w.disk|, readOnly, req, s.code))
            && s.e.id == head && (s.code != 1 ==> Counts(req, s.e.written))
  {
    hide Process, Parse, Readable, Writeable, Counts;
    StatusDeserved(w, q, readOnly, head);
  }

  // Which reads those are, by the raw fields of every buffer: flag bit 1 set, whole sectors, inside RAM, and its
  // stretch of the disk there.
  lemma ReadableRaw(ramSize: nat, diskSize: nat, req: Request)
    ensures Readable(ramSize, diskSize, req) <==> forall i :: 0 <= i < |req.data| ==>
      var d := req.data[i];
      && d.flags / 2 % 2 == 1 && d.len % 512 == 0 && d.addr + d.len <= ramSize
      && req.sector * 512 + Total(req.data[..i]) + d.len <= diskSize
  {
    hide Total;
    if Readable(ramSize, diskSize, req) {
      forall i | 0 <= i < |req.data|
        ensures var d := req.data[i];
          && d.flags / 2 % 2 == 1 && d.len % 512 == 0 && d.addr + d.len <= ramSize
          && req.sector * 512 + Total(req.data[..i]) + d.len <= diskSize
      {
        assert Fillable(ramSize, diskSize, req, i);
      }
    }
  }

  // And which writes: flag bit 1 clear, and the disk not read-only.
  lemma WriteableRaw(ramSize: nat, diskSize: nat, readOnly: bool, req: Request)
    ensures Writeable(ramSize, diskSize, readOnly, req) <==> forall i :: 0 <= i < |req.data| ==>
      var d := req.data[i];
      && !readOnly && d.flags / 2 % 2 == 0 && d.len % 512 == 0 && d.addr + d.len <= ramSize
      && req.sector * 512 + Total(req.data[..i]) + d.len <= diskSize
  {
    hide Total;
    if Writeable(ramSize, diskSize, readOnly, req) {
      forall i | 0 <= i < |req.data|
        ensures var d := req.data[i];
          && !readOnly && d.flags / 2 % 2 == 0 && d.len % 512 == 0 && d.addr + d.len <= ramSize
          && req.sector * 512 + Total(req.data[..i]) + d.len <= diskSize
      {
        assert Applicable(ramSize, diskSize, readOnly, req, i);
      }
    }
  }

  lemma StatusDeserved(w: World, q: Layout, readOnly: bool, head: u16)
    requires q.Fits(|w.ram|) && Parse(w.ram, q, head).Some?
    ensures var s, req := Process(w, q, readOnly, head), Parse(w.ram, q, head).value;
            && s.e.id == head
            && (req.status.addr < |w.ram| ==> Deserves(|w.ram|, |w.disk|, readOnly, req, s.code))
            && (req.status.addr >= |w.ram| ==> s.code == 1)
            && (s.code != 1 ==> Counts(req, s.e.written))
  {
    hide Parse, Chain, Gather, Scatter, Lay, Splice, Fail, Passing, Readable, Writeable, Count32, Total, AddU32;
    var req := Parse(w.ram, q, head).value;
    if req.kind <= 1 { PassesAll(|w.ram|, |w.disk|, readOnly, req); }
    Count32IsTotal(req.data);
    AddU32IsMod(Total(req.data), 1);
    SmallAdd();
    assert req.data[..|req.data|] == req.data;
  }

  lemma SmallAdd()
    ensures forall x: u32 :: x < 10 ==> AddU32(x, 1) == x + 1
  {
  }

  // GET_ID: the bytes "node-vmm" and a NUL, as far as the first buffer takes them, and nothing else.
  lemma IdGiven(w: World, readOnly: bool, req: Request)
    requires req.kind == 8
    ensures var ram', n := Transfer(w, readOnly, req).w.ram, if req.data == [] then 0 else Min(req.data[0].len, 9);
            && (forall a :: 0 <= a < |w.ram| && !(n > 0 && req.data[0].addr <= a < req.data[0].addr + n) ==> ram'[a] == w.ram[a])
            && (n > 0 && req.data[0].addr + n <= |w.ram| ==>
                  forall i :: 0 <= i < n ==>
                    ram'[req.data[0].addr + i] == if i < 8 then "node-vmm"[i] as int else 0)
  {
    if req.data != [] {
      var n := Min(req.data[0].len, |DEVICE_ID|);
      if InRange(|w.ram|, req.data[0].addr, n) { SpliceAt(w.ram, req.data[0].addr, DEVICE_ID[..n]); }
    }
  }

  // ---- What the status means ----

  // The descriptors that went through fit in RAM and, run together, on the disk.
  lemma PassedPrefix(w: World, readOnly: bool, req: Request, k: nat)
    requires k == Passing(|w.ram|, |w.disk|, readOnly, req, 0)
    ensures forall d :: d in req.data[..k] ==> InRange(|w.ram|, d.addr, d.len)
    ensures |Gather(w.ram, req.data[..k])| == Total(req.data[..k])
    ensures k > 0 ==> req.Offset() + Total(req.data[..k]) <= |w.disk|
  {
    hide Passing, Gather;
    var ds := req.data[..k];
    forall d | d in ds ensures InRange(|w.ram|, d.addr, d.len) {
      var j :| 0 <= j < k && ds[j] == d;
      assert GoesThrough(|w.ram|, |w.disk|, readOnly, req, j);
    }
    GatherLength(w.ram, ds);
    if k > 0 {
      assert GoesThrough(|w.ram|, |w.disk|, readOnly, req, k - 1);
      assert ds[..k - 1] == req.data[..k - 1];
    }
  }

  // The first k data descriptors of a write request are on the disk, and nothing else of it changed.
  ghost predicate Applied(w: World, disk': seq<byte>, req: Request, k: nat) {
    && k <= |req.data|
    && |Gather(w.ram, req.data[..k])| == Total(req.data[..k])
    && (k > 0 ==> req.sector * 512 + Total(req.data[..k]) <= |w.disk|)
    && disk' == Lay(w.disk, req.sector * 512, Gather(w.ram, req.data[..k]))
  }

  // The status byte of a parsed request is the last store, also on the error path, as long as what the
  // request itself stored left the descriptor table alone. Only reads and GET_ID store anything else.
  lemma StatusWritten(w: World, q: Layout, readOnly: bool, head: u16)
    requires q.Fits(|w.ram|) && Parse(w.ram, q, head).Some?
    requires var req := Parse(w.ram, q, head).value;
             req.kind == 0 || req.kind == 8 ==> Clear(req.data, q.desc, q.size * 16)
    ensures var s, req := Process(w, q, readOnly, head), Parse(w.ram, q, head).value;
            var stored := Transfer(w, readOnly, req).w.ram;
            && s.w.ram == Lay(stored, req.status.addr, [s.code])
            && (req.status.addr < |w.ram| ==> s.w.ram[req.status.addr] == s.code)
            && (req.kind != 0 && req.kind != 8 ==> stored == w.ram)
            && (s.code == 2 <==> req.kind !in {0, 1, 4, 8} && req.status.addr < |w.ram|)
  {
    hide Chain, Parse, Gather, Scatter, Total, Count32, Lay, Splice;
    var req := Parse(w.ram, q, head).value;
    var m := Transfer(w, readOnly, req);
    if req.kind == 0 || req.kind == 8 { TransferFrame(w, readOnly, req, q.desc, q.size * 16); }
    FailWritesStatus(w.ram, m.w.ram, q, head);
    LayByte(m.w.ram, req.status.addr, Process(w, q, readOnly, head).code);
  }

  lemma LayByte(s: seq<byte>, at: nat, b: byte)
    ensures at < |s| ==> Lay(s, at, [b]) == Splice(s, at, [b]) && Lay(s, at, [b])[at] == b
  {
    if at < |s| { SpliceAt(s, at, [b]); }
  }

  // Writes: status 0 means that all data descriptors were applied to the flat disk, status 1 that a
  // prefix was, status 2 that nothing moved, and the guest reads that status. No other request changes the
  // disk.
  lemma WriteStatus(w: World, q: Layout, readOnly: bool, head: u16)
    requires q.Fits(|w.ram|)
    ensures var s, p := Process(w, q, readOnly, head), Parse(w.ram, q, head);
            && s.code in {0, 1, 2}
            && (s.code == 2 ==> s.w.disk == w.disk)
            && (p.None? || p.value.kind != 1 ==> s.w.disk == w.disk)
            && (p.Some? && p.value.kind == 1 ==>
                  && s.code != 2
                  && s.w.ram == Lay(w.ram, p.value.status.addr, [s.code])
                  && (s.code == 0 ==> Applied(w, s.w.disk, p.value, |p.value.data|))
                  && (s.code == 1 ==> exists k: nat :: Applied(w, s.w.disk, p.value, k)))
  {
    hide Chain, Gather, Splice, Fail, U32At, U64At, Total, Parse, Lay;
    var p := Parse(w.ram, q, head);
    if p.Some? && p.value.kind == 1 {
      var k := Passing(|w.ram|, |w.disk|, readOnly, p.value, 0);
      PassedPrefix(w, readOnly, p.value, k);
      StatusWritten(w, q, readOnly, head);
      assert Applied(w, Process(w, q, readOnly, head).w.disk, p.value, k);
    }
  }

  // ---- What the request leaves alone in RAM ----

  // No descriptor's buffer, nor the status byte the error path may put at its start, meets [lo, lo + n).
  ghost predicate Clear(ds: seq<Desc>, lo: nat, n: nat) {
    forall d :: d in ds ==> Apart(d.addr, Max(d.len, 1), lo, n)
  }

  lemma {:induction false} ScatterFrame(ram: seq<byte>, disk: seq<byte>, ds: seq<Desc>, off: nat, lo: nat, n: nat)
    requires lo + n <= |ram| && Clear(ds, lo, n)
    ensures Scatter(ram, disk, ds, off)[lo..lo + n] == ram[lo..lo + n]
  {
    hide Lay, Total;
    if ds != [] {
      var init, d := ds[..|ds| - 1], ds[|ds| - 1];
      assert d in ds;
      assert Clear(init, lo, n);
      ScatterFrame(ram, disk, init, off, lo, n);
      LayFrame(Scatter(ram, disk, init, off), d.addr, Slice(disk, off + Total(init), d.len), lo, n);
    }
  }

  lemma TransferFrame(w: World, readOnly: bool, req: Request, lo: nat, n: nat)
    requires lo + n <= |w.ram| && Clear(req.data, lo, n)
    ensures Transfer(w, readOnly, req).w.ram[lo..lo + n] == w.ram[lo..lo + n]
  {
    hide Total, Splice;
    if req.kind == 0 {
      var ds := req.data[..Passing(|w.ram|, |w.disk|, readOnly, req, 0)];
      assert Clear(ds, lo, n);
      ScatterFrame(w.ram, w.disk, ds, req.Offset(), lo, n);
    } else if req.kind == 8 && req.data != [] {
      assert req.data[0] in req.data;
      var id := DEVICE_ID[..Min(req.data[0].len, |DEVICE_ID|)];
      if InRange(|w.ram|, req.data[0].addr, |id|) {
        LayFrame(w.ram, req.data[0].addr, id, lo, n);
      }
    }
  }

  // ---- The rings ----

  // No descriptor of the chain from head points into [lo, lo + n).
  ghost predicate HeadClear(ram: seq<byte>, q: Layout, head: nat, lo: nat, n: nat)
    requires q.Fits(|ram|)
  {
    var c := Chain(q.Table(ram), q.size, head);
    c.Some? ==> Clear(c.value, lo, n)
  }

  // The driver keeps the chain's buffers off the three rings.
  ghost predicate OffRings(ram: seq<byte>, q: Layout, head: nat)
    requires q.Fits(|ram|)
  {
    && HeadClear(ram, q, head, q.desc, q.size * 16)
    && HeadClear(ram, q, head, q.driver, 4 + q.size * 2)
    && HeadClear(ram, q, head, q.device, 4 + q.size * 8)
  }

  // And the used ring off the other two.
  predicate RingsApart(q: Layout) {
    Apart(q.device, 4 + q.size * 8, q.desc, q.size * 16) && Apart(q.device, 4 + q.size * 8, q.driver, 4 + q.size * 2)
  }

  lemma FailFrame(ram: seq<byte>, q: Layout, head: nat, lo: nat, n: nat)
    requires q.Fits(|ram|) && lo + n <= |ram| && HeadClear(ram, q, head, lo, n)
    ensures Fail(ram, q, head)[lo..lo + n] == ram[lo..lo + n]
  {
    hide Chain;
    var c := Chain(q.Table(ram), q.size, head);
    if c.Some? {
      assert c.value[|c.value| - 1] in c.value;
      LayFrame(ram, c.value[|c.value| - 1].addr, [1], lo, n);
    }
  }

  // A request leaves any region alone that no descriptor of its chain points into.
  lemma ProcessFrame(w: World, q: Layout, readOnly: bool, head: u16, lo: nat, n: nat)
    requires q.Fits(|w.ram|) && HeadClear(w.ram, q, head, q.desc, q.size * 16)
    requires lo + n <= |w.ram| && HeadClear(w.ram, q, head, lo, n)
    ensures Process(w, q, readOnly, head).w.ram[lo..lo + n] == w.ram[lo..lo + n]
  {
    hide Transfer, Fail, Chain, Splice, U32At, U64At, Apart;
    var p := Parse(w.ram, q, head);
    if p.None? {
      FailFrame(w.ram, q, head, lo, n);
    } else {
      ParsedClear(w.ram, q, head, lo, n);
      ParsedClear(w.ram, q, head, q.desc, q.size * 16);
      TransferFrame(w, readOnly, p.value, lo, n);
      TransferFrame(w, readOnly, p.value, q.desc, q.size * 16);
      var m := Transfer(w, readOnly, p.value);
      FailFrame(m.w.ram, q, head, lo, n);
      if InRange(|w.ram|, p.value.status.addr, 1) {
        LayFrame(m.w.ram, p.value.status.addr, [m.code], lo, n);
      }
    }
  }

  lemma ParsedClear(ram: seq<byte>, q: Layout, head: nat, lo: nat, n: nat)
    requires q.Fits(|ram|) && HeadClear(ram, q, head, lo, n)
    ensures var p := Parse(ram, q, head);
            p.Some? ==> Clear(p.value.data, lo, n) && Apart(p.value.status.addr, 1, lo, n)
  {
    hide Chain, U32At, U64At;
  }

  // ---- Reads ----

  // Buffers that do not meet each other, filled from the disk, hold that stretch of the disk.
  lemma {:induction false} ScatterGather(ram: seq<byte>, disk: seq<byte>, ds: seq<Desc>, off: nat)
    requires Disjoint(ds) && off + Total(ds) <= |disk|
    requires forall d :: d in ds ==> InRange(|ram|, d.addr, d.len)
    ensures Gather(Scatter(ram, disk, ds, off), ds) == Slice(disk, off, Total(ds))
  {
    hide Lay, Apart, Disjoint, Splice, Slice;
    if ds != [] {
      var init, d := ds[..|ds| - 1], ds[|ds| - 1];
      DisjointPrefix(ds, |init|);
      assert d in ds && Total(ds) == Total(init) + d.len;
      ScatterGather(ram, disk, init, off);
      var mid, piece := Scatter(ram, disk, init, off), Slice(disk, off + Total(init), d.len);
      SliceAppend(disk, off, Total(init), d.len);
      MissesEarlier(ds, |piece|);
      GatherMissed(mid, d.addr, piece, init);
      LaidBack(mid, d.addr, piece);
      assert Gather(Lay(mid, d.addr, piece), ds) == Slice(disk, off, Total(init)) + piece;
    }
  }

  // Reads into buffers apart from each other and from the status byte: the filled buffers hold the
  // flat disk from the request's offset on. Status 0 says all of them are filled and counts them.
  lemma ReadStatus(w: World, q: Layout, readOnly: bool, head: u16)
    requires q.Fits(|w.ram|) && HeadClear(w.ram, q, head, q.desc, q.size * 16)
    requires var p := Parse(w.ram, q, head);
             p.Some? && p.value.kind == 0 && Disjoint(p.value.data)
             && forall d :: d in p.value.data ==> Apart(p.value.status.addr, 1, d.addr, d.len)
    ensures var s, req := Process(w, q, readOnly, head), Parse(w.ram, q, head).value;
            && (s.code == 0 ==> Filled(w.disk, s.w.ram, req, |req.data|)
                                && s.e.written == (Total(req.data) + 1) % 0x1_0000_0000)
            && (s.code != 0 ==> s.code == 1 && Filled(w.disk, s.w.ram, req, Passing(|w.ram|, |w.disk|, readOnly, req, 0)))
  {
    hide Gather, Total, Parse, Scatter, Apart, Disjoint, Process, HeadClear, Layout.Fits, Splice, Lay, AddU32, Count32;
    var req := Parse(w.ram, q, head).value;
    var k := Passing(|w.ram|, |w.disk|, readOnly, req, 0);
    var ds := req.data[..k];
    ReadOutcome(w, q, readOnly, head);
    PassedPrefix(w, readOnly, req, k);
    DisjointPrefix(req.data, k);
    if k == 0 { EmptyTotal(); } else { ScatterGather(w.ram, w.disk, ds, req.Offset()); }
    GatherMissed(Scatter(w.ram, w.disk, ds, req.Offset()), req.status.addr, [Process(w, q, readOnly, head).code], ds);
    assert Filled(w.disk, Process(w, q, readOnly, head).w.ram, req, k);
    assert k == |req.data| ==> ds == req.data;
    Count32IsTotal(req.data);
    AddU32IsMod(Total(req.data), 1);
  }

  // With an intact table the status byte is the only store after the buffers of a read are filled.
  lemma ReadOutcome(w: World, q: Layout, readOnly: bool, head: u16)
    requires q.Fits(|w.ram|) && HeadClear(w.ram, q, head, q.desc, q.size * 16)
    requires var p := Parse(w.ram, q, head); p.Some? && p.value.kind == 0
    ensures var s, req := Process(w, q, readOnly, head), Parse(w.ram, q, head).value;
            var k := Passing(|w.ram|, |w.disk|, readOnly, req, 0);
            && s.code in {0, 1}
            && s.w.ram == Lay(Scatter(w.ram, w.disk, req.data[..k], req.Offset()), req.status.addr, [s.code])
            && (s.code == 0 ==> k == |req.data| && s.e.written == AddU32(Count32(req.data), 1))
  {
    hide Gather, Total, Parse, Scatter, Apart, Chain, Lay, Splice, Fail;
    var req := Parse(w.ram, q, head).value;
    ParsedClear(w.ram, q, head, q.desc, q.size * 16);
    StatusWritten(w, q, readOnly, head);
    assert req.data[..|req.data|] == req.data;
  }

  // The buffers of the first k data descriptors hold the flat disk from the request's offset on.
  ghost predicate Filled(disk: seq<byte>, ram': seq<byte>, req: Request, k: nat) {
    && k <= |req.data|
    && Gather(ram', req.data[..k]) == Slice(disk, req.sector * 512, Total(req.data[..k]))
  }

  // Then each of them holds its own stretch.
  lemma FilledBuffer(disk: seq<byte>, ram': seq<byte>, req: Request, k: nat, i: nat)
    requires Filled(disk, ram', req, k) && i < k
    requires forall j :: 0 <= j < k ==> InRange(|ram'|, req.data[j].addr, req.data[j].len)
    requires req.sector * 512 + Total(req.data[..k]) <= |disk|
    ensures BufferHolds(disk, ram', req, i)
  {
    hide Gather, Slice, Total;
    var ds := req.data[..k];
    forall d | d in ds ensures InRange(|ram'|, d.addr, d.len) {}
    GatherLength(ram', ds);
    GatherAt(ram', ds, i);
    SliceIs(ram', ds[i]);
    assert ds[..i] == req.data[..i];
    SlicePart(disk, req.sector * 512, Total(ds), Total(ds[..i]), ds[i].len);
  }

  // Buffer i holds the disk from the request's offset on, behind what the earlier buffers take.
  predicate BufferHolds(disk: seq<byte>, ram': seq<byte>, req: Request, i: nat)
    requires i < |req.data|
  {
    var at, off, n := req.data[i].addr, req.sector * 512 + Total(req.data[..i]), req.data[i].len;
    at + n <= |ram'| && off + n <= |disk| && ram'[at..at + n] == disk[off..off + n]
  }

  lemma SliceIs(s: seq<byte>, d: Desc)
    requires d.addr + d.len <= |s|
    ensures Slice(s, d.addr, d.len) == s[d.addr..d.addr + d.len]
  {
  }

  lemma SlicePart(s: seq<byte>, off: nat, len: nat, a: nat, n: nat)
    requires off + len <= |s| && a + n <= len
    ensures |Slice(s, off, len)| == len && Slice(s, off, len)[a..a + n] == s[off + a..off + a + n]
  {
    SliceOfSlice(s, off, len, a, n);
  }

  lemma EmptyTotal()
    ensures Total([]) == 0 && forall ram: seq<byte> :: Gather(ram, []) == []
  {
  }

  // With an intact table the error path finds the same status byte again.
  lemma FailWritesStatus(ram: seq<byte>, mid: seq<byte>, q: Layout, head: nat)
    requires q.Fits(|ram|) && |mid| == |ram| && q.Table(mid) == q.Table(ram) && Parse(ram, q, head).Some?
    ensures Fail(mid, q, head) == Lay(mid, Parse(ram, q, head).value.status.addr, [1])
  {
    hide Chain, U32At, U64At;
  }
}
