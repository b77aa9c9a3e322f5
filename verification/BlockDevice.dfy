// The virtio-blk device over guest RAM and the overlay disk: handle_queue and process_request
// (native/kvm/backend.cc:1900-1971), proved against the request function of BlockRequest, and what a
// whole run of the queue leaves in the rings.
module BlockDevice {
  import opened Bytes
  import opened Virtqueue
  import opened UsedRing
  import opened Buffers
  import opened BlockRequest
  import OverlayDisk

  // The available ring's entry for the 16-bit position last.
  function HeadAt(avail: seq<byte>, size: nat, last: nat): u16
    requires 0 < size && |avail| == 4 + size * 2
  {
    SlotFits(last, size);
    U16At(avail, 4 + last % size * 2)
  }

  // n increments of a uint16_t ring position.
  function Advance(x: u16, n: nat): u16 {
    if n == 0 then x else
      var y := Advance(x, n - 1);
      if y == 0xFFFF then 0 else y + 1
  }

  lemma {:induction false} AdvanceIsMod(x: u16, n: nat)
    ensures Advance(x, n) == (x + n) % 0x1_0000
  {
    if n > 0 { AdvanceIsMod(x, n - 1); }
  }

  // One turn of handle_queue's loop: fetch a head, process it, push its used entry.
  function Served1(w: World, q: Layout, readOnly: bool, last: u16): (r: World)
    requires q.Fits(|w.ram|)
    ensures |r.ram| == |w.ram| && |r.disk| == |w.disk|
  {
    var s := Process(w, q, readOnly, HeadAt(q.Avail(w.ram), q.size, last));
    s.w.(ram := PushInRam(s.w.ram, q, s.e))
  }

  datatype Run = Run(w: World, log: seq<Entry>)

  // The first n turns, and the entries they push.
  function ServeAll(w: World, q: Layout, readOnly: bool, last: u16, n: nat): (r: Run)
    requires q.Fits(|w.ram|)
    ensures |r.w.ram| == |w.ram| && |r.w.disk| == |w.disk|
  {
    if n == 0 then Run(w, []) else
      var r, at := ServeAll(w, q, readOnly, last, n - 1), Advance(last, n - 1);
      Run(Served1(r.w, q, readOnly, at), r.log + [Process(r.w, q, readOnly, HeadAt(q.Avail(r.w.ram), q.size, at)).e])
  }

  lemma ProcessId(w: World, q: Layout, readOnly: bool, head: u16)
    requires q.Fits(|w.ram|)
    ensures Process(w, q, readOnly, head).e.id == head
  {
    hide Transfer, Parse, Fail;
  }

  // The head of turn j of a run that starts with this RAM at the 16-bit position last.
  function HeadOf(ram: seq<byte>, q: Layout, last: u16, j: nat): u16
    requires q.Fits(|ram|)
  {
    HeadAt(q.Avail(ram), q.size, Advance(last, j))
  }

  // That is the little-endian entry at 4 + 2 * ((last + j) mod 2^16 mod size) of the available ring.
  lemma HeadBytes(ram: seq<byte>, q: Layout, last: u16, j: nat)
    requires q.Fits(|ram|)
    ensures var slot := (last + j) % 0x1_0000 % q.size;
            && 0 <= slot < q.size && q.driver + 4 + slot * 2 + 2 <= |ram|
            && HeadOf(ram, q, last, j) == Num(ram, q.driver + 4 + slot * 2) + 0x100 * Num(ram, q.driver + 4 + slot * 2 + 1)
  {
    AdvanceIsMod(last, j);
    SlotFits((last + j) % 0x1_0000, q.size);
  }

  // The rings lie apart, and the chains of the first n heads keep off them.
  ghost predicate NoOverlap(ram: seq<byte>, q: Layout, last: u16, n: nat)
    requires q.Fits(|ram|)
  {
    RingsApart(q) && forall j: nat :: j < n ==> OffRings(ram, q, HeadOf(ram, q, last, j))
  }

  // One turn keeps the table and the available ring and pushes one entry, for the head it fetched.
  lemma TurnRings(w: World, q: Layout, readOnly: bool, head: u16)
    requires q.Fits(|w.ram|) && RingsApart(q) && OffRings(w.ram, q, head)
    ensures var s := Process(w, q, readOnly, head);
            var ram := PushInRam(s.w.ram, q, s.e);
            && s.e.id == head
            && q.Table(ram) == q.Table(w.ram) && q.Avail(ram) == q.Avail(w.ram)
            && q.Used(ram) == Push(q.Used(w.ram), q.size, s.e)
  {
    hide Process, Push, PushInRam, HeadClear;
    var s := Process(w, q, readOnly, head);
    ProcessId(w, q, readOnly, head);
    ProcessFrame(w, q, readOnly, head, q.desc, q.size * 16);
    ProcessFrame(w, q, readOnly, head, q.driver, 4 + q.size * 2);
    ProcessFrame(w, q, readOnly, head, q.device, 4 + q.size * 8);
    PushFrame(s.w.ram, q, s.e, q.desc, q.size * 16);
    PushFrame(s.w.ram, q, s.e, q.driver, 4 + q.size * 2);
  }

  lemma TurnOverlap(ram: seq<byte>, q: Layout, last: u16, n: nat)
    requires q.Fits(|ram|) && n > 0 && NoOverlap(ram, q, last, n)
    ensures NoOverlap(ram, q, last, n - 1) && RingsApart(q) && OffRings(ram, q, HeadOf(ram, q, last, n - 1))
  {
    hide OffRings, RingsApart, HeadOf;
  }

  lemma SameTable(a: seq<byte>, b: seq<byte>, q: Layout, head: u16)
    requires q.Fits(|a|) && |a| == |b| && q.Table(a) == q.Table(b)
    ensures OffRings(a, q, head) == OffRings(b, q, head)
  {
    hide Chain, Clear;
  }

  // Every turn of a run: exactly one used entry, for exactly the head the driver put there before the run.
  lemma {:induction false} RunRings(w: World, q: Layout, readOnly: bool, last: u16, n: nat)
    requires q.Fits(|w.ram|) && NoOverlap(w.ram, q, last, n)
    ensures var r := ServeAll(w, q, readOnly, last, n);
            && q.Table(r.w.ram) == q.Table(w.ram) && q.Avail(r.w.ram) == q.Avail(w.ram)
            && |r.log| == n
            && q.Used(r.w.ram) == PushAll(q.Used(w.ram), q.size, r.log)
            && forall j: nat :: j < n ==> r.log[j].id == HeadOf(w.ram, q, last, j)
  {
    hide Process, Push, PushInRam, HeadAt, Layout.Table, Layout.Avail, Layout.Used, OffRings, NoOverlap;
    if n > 0 {
      TurnOverlap(w.ram, q, last, n);
      RunRings(w, q, readOnly, last, n - 1);
      var r := ServeAll(w, q, readOnly, last, n - 1);
      var head := HeadAt(q.Avail(r.w.ram), q.size, Advance(last, n - 1));
      assert head == HeadOf(w.ram, q, last, n - 1);
      SameTable(w.ram, r.w.ram, q, head);
      TurnRings(r.w, q, readOnly, head);
      var s := Process(r.w, q, readOnly, head);
      assert (r.log + [s.e])[..n - 1] == r.log;
    }
  }

  // handle_queue consumes exactly the heads between its position and the driver's index.
  function Outstanding(last: u16, availIdx: u16): nat {
    if last <= availIdx then availIdx - last else availIdx + 0x1_0000 - last
  }

  lemma AdvanceReaches(start: u16, n: nat, goal: u16)
    requires n <= Outstanding(start, goal)
    ensures Outstanding(start, goal) == (goal - start) % 0x1_0000
    ensures Advance(start, n) == goal <==> n == Outstanding(start, goal)
  {
    AdvanceIsMod(start, n);
  }

  // A whole run, on a power-of-two queue or without a wrap of the used index: the driver's rings are as they
  // were; the used index advanced by the number of heads, mod 2^16; and the latest entries, up to a full ring
  // of them, lie in consecutive slots in the order of the heads, each under its own head.
  lemma QueueRun(w: World, q: Layout, readOnly: bool, last: u16)
    requires q.Fits(|w.ram|)
    requires var n := Outstanding(last, U16At(q.Avail(w.ram), 2));
             NoOverlap(w.ram, q, last, n) && Regular(q.size, UsedIdx(q.Used(w.ram)), n)
    ensures var n := Outstanding(last, U16At(q.Avail(w.ram), 2));
            var r, i := ServeAll(w, q, readOnly, last, n), UsedIdx(q.Used(w.ram));
            && q.Table(r.w.ram) == q.Table(w.ram) && q.Avail(r.w.ram) == q.Avail(w.ram)
            && UsedIdx(q.Used(r.w.ram)) == (i + n) % 0x1_0000
            && (forall j: nat {:trigger Slot(i + j, q.size)} :: j < n <= j + q.size ==>
                  EntryAt(q.Used(r.w.ram), Slot(i + j, q.size)).id == HeadOf(w.ram, q, last, j))
            && (forall s :: 0 <= s < q.size && Untouched(i, n, q.size, s) ==>
                  EntryAt(q.Used(r.w.ram), s) == EntryAt(q.Used(w.ram), s))
  {
    hide ServeAll, PushAll, HeadOf, UsedIdx, EntryAt, Regular, NoOverlap;
    var n := Outstanding(last, U16At(q.Avail(w.ram), 2));
    var r, i := ServeAll(w, q, readOnly, last, n), UsedIdx(q.Used(w.ram));
    RunRings(w, q, readOnly, last, n);
    PushAllExact(q.Used(w.ram), q.size, r.log);
    forall j: nat {:trigger Slot(i + j, q.size)} | j < n <= j + q.size
      ensures EntryAt(q.Used(r.w.ram), Slot(i + j, q.size)).id == HeadOf(w.ram, q, last, j)
    {
      assert r.log[j].id == HeadOf(w.ram, q, last, j);
    }
  }

  // Requests of the kinds that move no data.
  lemma OtherTransfer(w: World, readOnly: bool, req: Request)
    ensures req.kind == 4 ==> Transfer(w, readOnly, req) == Moved(w, 0, 0)
    ensures req.kind !in {0, 1, 4, 8} ==> Transfer(w, readOnly, req) == Moved(w, 0, 2)
    ensures req.kind == 1 ==> Transfer(w, readOnly, req).written == 0
    ensures req.kind in {0, 1, 8} ==> Transfer(w, readOnly, req).code in {0, 1}
  {
    hide Gather, Scatter, Lay, Splice, Count32;
  }

  // ---- The device ----

  // RAM and disk once the first i data descriptors of a read request have been filled.
  ghost function AfterReads(w: World, req: Request, i: nat): World
    requires i <= |req.data|
  {
    w.(ram := Scatter(w.ram, w.disk, req.data[..i], req.Offset()))
  }

  lemma ReadTransfer(w: World, readOnly: bool, req: Request, k: nat)
    requires req.kind == 0 && k == Passing(|w.ram|, |w.disk|, readOnly, req, 0)
    ensures AfterReads(w, req, 0) == w
    ensures Transfer(w, readOnly, req)
         == Moved(AfterReads(w, req, k), Count32(req.data[..k]), if k == |req.data| then 0 else 1)
  {
  }

  lemma AfterReadsDisk(w: World, req: Request, i: nat)
    requires i <= |req.data|
    ensures AfterReads(w, req, i).disk == w.disk
  {
  }

  // Where the read loop stands before descriptor i.
  ghost predicate ReadSoFar(w: World, readOnly: bool, req: Request, i: nat, sector: nat, written: nat)
    requires i <= |req.data|
  {
    && Passing(|w.ram|, |w.disk|, readOnly, req, 0) == Passing(|w.ram|, |w.disk|, readOnly, req, i)
    && sector * 512 == req.Offset() + Total(req.data[..i])
    && (i > 0 ==> sector * 512 <= |w.disk|)
    && written == Count32(req.data[..i])
  }

  // RAM and disk once the first i data descriptors of a write request have been applied.
  ghost function AfterWrites(w: World, req: Request, i: nat): World
    requires i <= |req.data|
  {
    w.(disk := Lay(w.disk, req.Offset(), Gather(w.ram, req.data[..i])))
  }

  lemma WriteTransfer(w: World, readOnly: bool, req: Request, k: nat)
    requires req.kind == 1 && k == Passing(|w.ram|, |w.disk|, readOnly, req, 0)
    ensures AfterWrites(w, req, 0) == w
    ensures Transfer(w, readOnly, req) == Moved(AfterWrites(w, req, k), 0, if k == |req.data| then 0 else 1)
  {
    hide Passing, Passes, Total;
    assert req.data[..0] == [] && Gather(w.ram, []) == [];
  }

  // Where the write loop stands before descriptor i.
  ghost predicate WriteSoFar(w: World, readOnly: bool, req: Request, i: nat, sector: nat)
    requires i <= |req.data|
  {
    && Passing(|w.ram|, |w.disk|, readOnly, req, 0) == Passing(|w.ram|, |w.disk|, readOnly, req, i)
    && |Gather(w.ram, req.data[..i])| == Total(req.data[..i])
    && sector * 512 == req.Offset() + Total(req.data[..i])
    && (i > 0 ==> sector * 512 <= |w.disk|)
  }

  class VirtioBlk {
    const disk: OverlayDisk.Disk
    const mem: array<byte>
    const q: Layout
    var lastAvail: u16

    ghost predicate Valid()
      reads this, disk
    {
      q.Fits(mem.Length) && disk.Valid()
    }

    ghost function Now(): World
      requires Valid()
      reads this, disk, mem
    {
      World(mem[..], disk.Contents())
    }

    constructor (d: OverlayDisk.Disk, m: array<byte>, layout: Layout)
      requires d.Valid() && layout.Fits(m.Length)
      ensures Valid() && disk == d && mem == m && q == layout && lastAvail == 0
    {
      disk, mem, q, lastAvail := d, m, layout, 0;
    }

    // One data descriptor of a read request: the flag and length checks, mem.ptr, ReadDisk.
    method ReadOne(d: Desc, sector: u64, ghost w: World) returns (ok: bool)
      requires Valid() && w == Now()
      modifies mem
      ensures Valid()
      ensures ok == Passes(|w.ram|, |w.disk|, disk.readOnly, 0, d, sector * 512)
      ensures Now() == if ok then w.(ram := Lay(w.ram, d.addr, Slice(w.disk, sector * 512, d.len))) else w
    {
      if !d.Writable() || d.len % 512 != 0 || !InRange(mem.Length, d.addr, d.len) { return false; }
      var r := disk.Read(sector, mem, d.addr, d.len);
      return r.Ok?;
    }

    method ReadNext(req: Request, i: nat, sector: u64, ghost w: World) returns (ok: bool)
      requires Valid() && i < |req.data| && Now() == AfterReads(w, req, i)
      requires sector * 512 == req.Offset() + Total(req.data[..i])
      modifies mem
      ensures Valid()
      ensures ok == Passes(|w.ram|, |w.disk|, disk.readOnly, 0, req.data[i], sector * 512)
      ensures Now() == AfterReads(w, req, if ok then i + 1 else i)
    {
      hide Lay, Slice, Gather, Scatter, Splice, Total;
      NextDesc(w, req.data, req.Offset(), i, sector * 512);
      ok := ReadOne(req.data[i], sector, AfterReads(w, req, i));
    }

    // One data descriptor of a write request: the flag and length checks, mem.ptr, WriteDisk.
    method WriteOne(d: Desc, sector: u64) returns (ok: bool)
      requires Valid()
      modifies disk
      ensures Valid()
      ensures ok == Passes(mem.Length, |old(Now()).disk|, disk.readOnly, 1, d, sector * 512)
      ensures Now() == if ok then old(Now()).(disk := Lay(old(Now()).disk, sector * 512, Slice(old(Now()).ram,
              d.addr, d.len))) else old(Now())
    {
      if d.Writable() || d.len % 512 != 0 || !InRange(mem.Length, d.addr, d.len) { return false; }
      AlignedEnd(sector * 512, d.len, |disk.base|);
      var r := disk.Write(sector, mem[d.addr..d.addr + d.len]);
      return r.Ok?;
    }

    // The read loop of process_request.
    method ReadData(req: Request) returns (ok: bool, written: u32)
      requires Valid() && req.kind == 0
      modifies mem
      ensures Valid()
      ensures Now() == Transfer(old(Now()), disk.readOnly, req).w
      ensures written == Transfer(old(Now()), disk.readOnly, req).written
      ensures ok == (Transfer(old(Now()), disk.readOnly, req).code == 0)
    {
      hide AddU32, AfterReads, Transfer, Passing;
      ghost var w := Now();
      var sector: u64 := req.sector;
      written := 0;
      var i := 0;
      ReadTransfer(w, disk.readOnly, req, Passing(|w.ram|, |w.disk|, disk.readOnly, req, 0));
      StartEmpty(w, req.data, req.Offset());
      while i < |req.data|
        invariant Valid() && 0 <= i <= |req.data|
        invariant Now() == AfterReads(w, req, i)
        invariant ReadSoFar(w, disk.readOnly, req, i, sector, written)
      {
        ok, sector, written := ReadTurn(req, i, sector, written, w);
        if !ok { return; }
        i := i + 1;
      }
      assert req.data[..i] == req.data;
      ok := true;
    }

    // One turn of the read loop.
    method ReadTurn(req: Request, i: nat, sector: u64, written: u32, ghost w: World)
      returns (ok: bool, nextSector: u64, nextWritten: u32)
      requires Valid() && req.kind == 0 && i < |req.data| && Now() == AfterReads(w, req, i)
      requires ReadSoFar(w, disk.readOnly, req, i, sector, written)
      modifies mem
      ensures Valid()
      ensures ok ==> Now() == AfterReads(w, req, i + 1)
      ensures ok ==> ReadSoFar(w, disk.readOnly, req, i + 1, nextSector, nextWritten)
      ensures !ok ==> Now() == AfterReads(w, req, i) && nextWritten == written
                      && i == Passing(|w.ram|, |w.disk|, disk.readOnly, req, 0) < |req.data|
    {
      hide AddU32, AfterReads, Lay, Slice, Gather, Scatter;
      NextDesc(w, req.data, req.Offset(), i, sector * 512);
      ok := ReadNext(req, i, sector, w);
      if !ok { return ok, sector, written; }
      AfterReadsDisk(w, req, i);
      AfterReadsDisk(w, req, i + 1);
      nextWritten := AddU32(written, req.data[i].len);
      nextSector := sector + req.data[i].len / 512;
    }

    // The write loop of process_request.
    method WriteData(req: Request) returns (ok: bool)
      requires Valid() && req.kind == 1
      modifies disk
      ensures Valid()
      ensures Now() == Transfer(old(Now()), disk.readOnly, req).w
      ensures ok == (Transfer(old(Now()), disk.readOnly, req).code == 0)
    {
      hide AfterWrites, Transfer, Passing;
      ghost var w := Now();
      var sector: u64 := req.sector;
      var i := 0;
      WriteTransfer(w, disk.readOnly, req, Passing(|w.ram|, |w.disk|, disk.readOnly, req, 0));
      StartEmpty(w, req.data, req.Offset());
      while i < |req.data|
        invariant Valid() && 0 <= i <= |req.data|
        invariant Now() == AfterWrites(w, req, i)
        invariant WriteSoFar(w, disk.readOnly, req, i, sector)
      {
        ok, sector := WriteTurn(req, i, sector, w);
        if !ok { return; }
        i := i + 1;
      }
      assert req.data[..i] == req.data;
      ok := true;
    }

    // One turn of the write loop.
    method WriteTurn(req: Request, i: nat, sector: u64, ghost w: World) returns (ok: bool, nextSector: u64)
      requires Valid() && req.kind == 1 && i < |req.data| && Now() == AfterWrites(w, req, i)
      requires WriteSoFar(w, disk.readOnly, req, i, sector)
      modifies disk
      ensures Valid()
      ensures ok ==> Now() == AfterWrites(w, req, i + 1) && WriteSoFar(w, disk.readOnly, req, i + 1, nextSector)
      ensures !ok ==> Now() == AfterWrites(w, req, i)
                      && i == Passing(|w.ram|, |w.disk|, disk.readOnly, req, 0) < |req.data|
    {
      hide Lay, Gather, Scatter, Splice, Slice, Total;
      var d := req.data[i];
      NextDesc(w, req.data, req.Offset(), i, sector * 512);
      ok := WriteOne(d, sector);
      if !ok { return ok, sector; }
      LayAppend(w.disk, req.Offset(), Gather(w.ram, req.data[..i]), sector * 512, Slice(w.ram, d.addr, d.len));
      nextSector := sector + d.len / 512;
    }

    // The try block of process_request. On a throw the byte count so far survives.
    method Attempt(head: u16) returns (thrown: bool, written: u32)
      requires Valid()
      modifies mem, disk
      ensures Valid()
      ensures var w, p := old(Now()), Parse(old(mem[..]), q, head);
              if p.None? then thrown && written == 0 && Now() == w else
                var m := Transfer(w, disk.readOnly, p.value);
                && thrown == (m.code == 1 || !InRange(mem.Length, p.value.status.addr, 1))
                && written == m.written
                && Now() == if thrown then m.w else m.w.(ram := Splice(m.w.ram, p.value.status.addr, [m.code]))
    {
      hide Transfer, Parse, Splice, Gather, Scatter;
      ghost var w := Now();
      var parsed := ParseRequest(head);
      if parsed.None? { return true, 0; }
      var req := parsed.value;
      var ok, code := true, 0;
      written := 0;
      OtherTransfer(w, disk.readOnly, req);
      if req.kind == 0 {
        ok, written := ReadData(req);
      } else if req.kind == 1 {
        ok := WriteData(req);
      } else if req.kind == 4 {
        // fsync succeeds
      } else if req.kind == 8 {
        ok, written := CopyId(req);
      } else {
        code := 2;
      }
      if !ok || !InRange(mem.Length, req.status.addr, 1) { return true, written; }
      Store(mem, req.status.addr, [code]);
      thrown := false;
    }

    method ParseRequest(head: u16) returns (p: Option<Request>)
      requires Valid()
      ensures p == Parse(mem[..], q, head)
    {
      hide Chain, U32At, U64At, Layout.Table;
      var r := WalkChain(mem, q, head);
      if r.Err? { return None; }
      var c := r.value;
      if |c| < 2 || c[0].len < 16 { return None; }
      var status := c[|c| - 1];
      if !status.Writable() || status.len < 1 || !InRange(mem.Length, c[0].addr, 16) { return None; }
      return Some(Request(U32At(mem[..], c[0].addr), U64At(mem[..], c[0].addr + 8), c[1..|c| - 1], status));
    }

    // VIRTIO_BLK_T_GET_ID fills the first data descriptor only.
    method CopyId(req: Request) returns (ok: bool, written: u32)
      requires Valid() && req.kind == 8
      modifies mem
      ensures Valid()
      ensures var m := Transfer(old(Now()), disk.readOnly, req);
              Now() == m.w && written == m.written && ok == (m.code == 0)
    {
      if req.data == [] { return true, 0; }
      var n := Min(req.data[0].len, |DEVICE_ID|);
      if !InRange(mem.Length, req.data[0].addr, n) { return false, 0; }
      Store(mem, req.data[0].addr, DEVICE_ID[..n]);
      return true, n;
    }

    // The catch block's attempt to report the error.
    method ReportError(head: u16)
      requires Valid()
      modifies mem
      ensures Valid() && Now() == old(Now()).(ram := Fail(old(mem[..]), q, head))
    {
      hide Splice, Chain, Layout.Table;
      var r := WalkChain(mem, q, head);
      if r.Ok? {
        var last := r.value[|r.value| - 1];
        if InRange(mem.Length, last.addr, 1) { Store(mem, last.addr, [1]); }
      }
    }

    // process_request up to push_used.
    method Serve(head: u16) returns (e: Entry)
      requires Valid()
      modifies mem, disk
      ensures Valid()
      ensures var s := Process(old(Now()), q, disk.readOnly, head); Now() == s.w && e == s.e
    {
      var thrown, written := Attempt(head);
      if thrown {
        ReportError(head);
        return Entry(head, written);
      }
      return Entry(head, AddU32(written, 1));
    }

    // One turn of handle_queue's loop.
    method Turn()
      requires Valid()
      modifies this`lastAvail, mem, disk
      ensures Valid() && lastAvail == Advance(old(lastAvail), 1)
      ensures Now() == Served1(old(Now()), q, disk.readOnly, old(lastAvail))
    {
      hide Process, PushInRam, HeadAt;
      var head := HeadAt(mem[q.driver..q.driver + (4 + q.size * 2)], q.size, lastAvail);
      lastAvail := Advance(lastAvail, 1);
      var e := Serve(head);
      PushUsed(mem, q, e);
    }

    // handle_queue: the whole new state is the run of the outstanding heads.
    method HandleQueue()
      requires Valid()
      modifies this`lastAvail, mem, disk
      ensures Valid()
      ensures lastAvail == U16At(q.Avail(old(mem[..])), 2)
      ensures Now() == ServeAll(old(Now()), q, disk.readOnly, old(lastAvail), Outstanding(old(lastAvail), lastAvail)).w
    {
      var availIdx := U16At(mem[q.driver..q.driver + (4 + q.size * 2)], 2);
      ServeUntil(availIdx);
    }

    // The loop of handle_queue.
    method ServeUntil(availIdx: u16)
      requires Valid()
      modifies this`lastAvail, mem, disk
      ensures Valid() && lastAvail == availIdx
      ensures Now() == ServeAll(old(Now()), q, disk.readOnly, old(lastAvail), Outstanding(old(lastAvail), availIdx)).w
    {
      hide U16At, Served1;
      ghost var w, start := Now(), lastAvail;
      ghost var n: nat := 0;
      while lastAvail != availIdx
        invariant Valid()
        invariant n <= Outstanding(start, availIdx) && lastAvail == Advance(start, n)
        invariant Now() == ServeAll(w, q, disk.readOnly, start, n).w
        decreases Outstanding(start, availIdx) - n
      {
        NextTurn(w, start, n, availIdx);
        n := n + 1;
      }
      NotYet(start, n, availIdx);
    }

    // The turn for head n of a run that started in w at index start.
    method NextTurn(ghost w: World, ghost start: u16, ghost n: nat, ghost goal: u16)
      requires Valid() && q.Fits(|w.ram|) && lastAvail == Advance(start, n) && lastAvail != goal
      requires n <= Outstanding(start, goal) && Now() == ServeAll(w, q, disk.readOnly, start, n).w
      modifies this`lastAvail, mem, disk
      ensures Valid() && lastAvail == Advance(start, n + 1) && n + 1 <= Outstanding(start, goal)
      ensures Now() == ServeAll(w, q, disk.readOnly, start, n + 1).w
    {
      hide Served1, Outstanding;
      NotYet(start, n, goal);
      Turn();
    }
  }

  lemma NotYet(start: u16, n: nat, goal: u16)
    requires n <= Outstanding(start, goal)
    ensures Advance(start, n) == goal <==> n == Outstanding(start, goal)
  {
    AdvanceReaches(start, n, goal);
  }

  lemma NextDesc(w: World, ds: seq<Desc>, off: nat, i: nat, at: nat)
    requires i < |ds| && at == off + Total(ds[..i])
    ensures Total(ds[..i + 1]) == Total(ds[..i]) + ds[i].len
    ensures Count32(ds[..i + 1]) == AddU32(Count32(ds[..i]), ds[i].len)
    ensures Scatter(w.ram, w.disk, ds[..i + 1], off)
            == Lay(Scatter(w.ram, w.disk, ds[..i], off), ds[i].addr, Slice(w.disk, at, ds[i].len))
    ensures Gather(w.ram, ds[..i + 1]) == Gather(w.ram, ds[..i]) + Slice(w.ram, ds[i].addr, ds[i].len)
  {
    hide Lay, Slice;
    assert ds[..i + 1][..i] == ds[..i];
  }

  lemma StartEmpty(w: World, ds: seq<Desc>, off: nat)
    ensures Total(ds[..0]) == 0 && Count32(ds[..0]) == 0 && Gather(w.ram, ds[..0]) == []
    ensures Scatter(w.ram, w.disk, ds[..0], off) == w.ram && Lay(w.disk, off, []) == w.disk
  {
  }

  // A sector-aligned range inside the file ends inside its last whole sector.
  lemma AlignedEnd(off: nat, len: nat, n: nat)
    requires off % 512 == 0 && len % 512 == 0
    ensures off + len <= n ==> off + len <= n / 512 * 512
  {
  }
}
