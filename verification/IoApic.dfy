// The WHP back end's IOAPIC (native/whp/backend.cc:1251-1470; Intel 82093AA datasheet, section 3.2.4): 24
// redirection entries, the level of each line, and a queue of interrupts that the partition has not taken
// yet. What WHvRequestInterrupt answers is a parameter, an arbitrary answer for each call.
module IoApic {
  import opened Bytes

  const PINS: nat := 24
  const MAX_QUEUED: nat := 64

  datatype Control = Control(logical: bool, level: bool, destination: bv64, vector: int)

  // History: an interrupt entered the queue, one was lost because the queue was full, a set Remote IRR was
  // cleared.
  datatype Happening = Accepted(pin: nat, control: Control) | Dropped(pin: nat) | Cleared(pin: nat)

  // The bits of a redirection entry: Remote IRR 14, trigger mode 15, mask 16, destination mode 11.
  predicate Rirr(e: bv64) { e & 0x4000 != 0 }

  predicate Level(e: bv64) { e & 0x8000 != 0 }

  predicate Masked(e: bv64) { e & 0x1_0000 != 0 }

  function Vector(e: bv64, pin: nat): int {
    var v := (e & 0xFF) as int;
    if v == 0 then 0x20 + pin else v
  }

  function ControlOf(e: bv64, pin: nat): Control {
    Control(e & 0x800 != 0, Level(e), (e >> 56) & 0xFF, Vector(e, pin))
  }

  // A request for the pin goes into the queue if there is room.
  predicate Wanted(e: bv64) { !Masked(e) && !(Level(e) && Rirr(e)) }

  function Raised(e: bv64): bv64 { if Level(e) then e | 0x4000 else e }

  function Lowered(e: bv64): bv64 { e & 0xFFFF_FFFF_FFFF_BFFF }

  function HighWritten(e: bv64, value: bv64): bv64 { (e & 0xFFFF_FFFF) | (value << 32) }

  function LowWritten(e: bv64, value: bv64): bv64 {
    var raw := (e & 0xFFFF_FFFF_0000_0000) | value;
    var kept := Lowered(raw) | (e & 0x4000);
    if kept & 0x8000 == 0 then Lowered(kept) else kept
  }

  lemma ControlLevel(e: bv64, pin: nat)
    ensures ControlOf(e, pin).level == Level(e)
  {
  }

  // What a request does with an entry, by the bits of the entry: it is wanted unless masked (bit 16) or an
  // outstanding level interrupt (bits 15 and 14); acceptance sets bit 14 of a level entry; and the interrupt has
  // the vector of bits 0-7, or 0x20 + pin when they are 0, and the destination of bits 56-63, logical by bit 11.
  lemma RequestBits(e: bv64, pin: nat)
    ensures Wanted(e) <==> e & 0x1_0000 == 0 && (e & 0x8000 == 0 || e & 0x4000 == 0)
    ensures Raised(e) == if e & 0x8000 != 0 then e | 0x4000 else e
    ensures ControlOf(e, pin) == Control(e & 0x800 != 0, e & 0x8000 != 0, (e >> 56) & 0xFF,
                                         if e & 0xFF == 0 then 0x20 + pin else (e & 0xFF) as int)
  {
  }

  // The entries that an end of interrupt for a vector matches, by their bits.
  lemma EndsBits(e: bv64, pin: nat, vector: int)
    ensures Ends(e, pin, vector) <==>
            && e & 0x8000 != 0 && e & 0x4000 != 0
            && vector == if e & 0xFF == 0 then 0x20 + pin else (e & 0xFF) as int
  {
  }

  // What an end of interrupt does to one pin, by the bits: it clears bit 14 of a matching entry, which a new
  // request may set again, and requests the pin again exactly if its line is high and bit 16 is clear.
  lemma EoiBits(e: bv64, now: bv64, pin: nat, high: bool, vector: int)
    ensures Ends(e, pin, vector) && EntryEnded(e, now, pin, vector) ==>
            now & 0xFFFF_FFFF_FFFF_BFFF == e & 0xFFFF_FFFF_FFFF_BFFF
    ensures !Ends(e, pin, vector) && EntryEnded(e, now, pin, vector) ==> now == e
    ensures Happenings(e, high, pin, vector) ==
            if !Ends(e, pin, vector) then 0 else if high && e & 0x1_0000 == 0 then 2 else 1
  {
    hide Ends, Lowered, Masked;
    ModeBits(e);
    ModeBits(now);
  }

  lemma ModeBits(e: bv64)
    ensures Masked(e) <==> e & 0x1_0000 != 0
    ensures Rirr(e) <==> e & 0x4000 != 0
    ensures Lowered(e) == e & 0xFFFF_FFFF_FFFF_BFFF
  {
  }

  // By the bits: a write of w over e clears a set bit 14, or unmasks an entry that is not an outstanding level
  // interrupt.
  predicate ClearsIrr(e: bv64, w: bv64) { e & 0x4000 != 0 && w & 0x4000 == 0 }

  predicate Unmasks(e: bv64, w: bv64) {
    e & 0x1_0000 != 0 && w & 0x1_0000 == 0 && (w & 0x8000 == 0 || w & 0x4000 == 0)
  }

  lemma WriteBits(e: bv64, w: bv64)
    ensures ClearsIrr(e, w) <==> Rirr(e) && !Rirr(w)
    ensures Unmasks(e, w) <==> Masked(e) && Wanted(w)
  {
  }

  // A write of a low half that unmasks a pin whose line is high requests its interrupt, unless it is an
  // outstanding level interrupt; and clearing bit 14 is recorded.
  lemma WrittenMeans(pin: nat, was: seq<bv64>, w: bv64, before: seq<Happening>, now: seq<bv64>, after: seq<Happening>,
                     high: bool, room: bool)
    requires pin < |was| && Written(pin, was, w, before, now, after, high, room)
    ensures var lowered := if ClearsIrr(was[pin], w) then before + [Cleared(pin)] else before;
            var asks := high && Unmasks(was[pin], w);
            && |now| == |was| && (forall i :: 0 <= i < |was| && i != pin ==> now[i] == was[i])
            && (asks && room ==> after == lowered + [Accepted(pin, ControlOf(w, pin))] && now[pin] == Raised(w))
            && (asks && !room ==> after == lowered + [Dropped(pin)] && now[pin] == w)
            && (!asks ==> after == lowered && now[pin] == w)
  {
    hide ControlOf, Masked, Rirr, Wanted, Raised, ClearsIrr, Unmasks;
    WriteBits(was[pin], w);
  }

  // Across the two: the end of interrupt for the vector that an accepted level interrupt carries matches its pin.
  lemma AcceptedEnds(e: bv64, pin: nat)
    requires pin < 24 && Wanted(e) && e & 0x8000 != 0
    ensures 0 <= ControlOf(e, pin).vector < 0x100 && Ends(Raised(e), pin, ControlOf(e, pin).vector)
  {
    SameVector(e);
  }

  lemma SameVector(e: bv64)
    ensures (e | 0x4000) & 0xFF == e & 0xFF && e & 0xFF <= 0xFF
  {
  }

  lemma RaisedBits(e: bv64)
    ensures Rirr(Raised(e)) == (Level(e) || Rirr(e)) && Level(Raised(e)) == Level(e) && Masked(Raised(e)) == Masked(e)
    ensures !Level(e) ==> Raised(e) == e
    ensures Lowered(Raised(e)) == Lowered(e)
  {
  }

  lemma LoweredBits(e: bv64)
    ensures !Rirr(Lowered(e)) && Level(Lowered(e)) == Level(e) && Masked(Lowered(e)) == Masked(e)
    ensures Lowered(Lowered(e)) == Lowered(e)
    ensures Lowered(e) & 0xFF == e & 0xFF
  {
  }

  // A guest write of the low half takes every bit of the value except Remote IRR, which it keeps, or clears
  // by choosing edge triggering; the high half stays.
  lemma LowWrittenHigh(e: bv64, value: bv64)
    requires value <= 0xFFFF_FFFF
    ensures LowWritten(e, value) >> 32 == e >> 32
  {
  }

  lemma LowWrittenMode(e: bv64, value: bv64)
    requires value <= 0xFFFF_FFFF
    ensures Level(LowWritten(e, value)) == Level(value)
  {
  }

  lemma LowWrittenRirr(e: bv64, value: bv64)
    requires value <= 0xFFFF_FFFF
    ensures Rirr(LowWritten(e, value)) == (Rirr(e) && Level(value))
  {
  }

  lemma LowWrittenLevel(e: bv64, value: bv64)
    requires value <= 0xFFFF_FFFF && Level(value)
    ensures LowWritten(e, value) & 0xFFFF_FFFF == (value & 0xFFFF_BFFF) | (e & 0x4000)
  {
  }

  lemma LowWrittenEdge(e: bv64, value: bv64)
    requires value <= 0xFFFF_FFFF && !Level(value)
    ensures LowWritten(e, value) & 0xFFFF_FFFF == value & 0xFFFF_BFFF
  {
  }

  lemma LoweredIrr(e: bv64)
    ensures !Rirr(Lowered(e))
  {
  }

  lemma LoweredWanted(e: bv64)
    ensures Wanted(Lowered(e)) <==> !Masked(e)
  {
  }

  lemma HighWrittenBits(e: bv64, value: bv64)
    ensures Rirr(HighWritten(e, value)) == Rirr(e) && Level(HighWritten(e, value)) == Level(e)
  {
  }

  lemma HighWrittenHalves(e: bv64, value: bv64)
    requires value <= 0xFFFF_FFFF
    ensures HighWritten(e, value) & 0xFFFF_FFFF == e & 0xFFFF_FFFF && HighWritten(e, value) >> 32 == value
  {
  }

  // ---- The history ----

  function Controls(trace: seq<Happening>): seq<Control> {
    if trace == [] then [] else
      var n := |trace| - 1;
      Controls(trace[..n]) + if trace[n].Accepted? then [trace[n].control] else []
  }

  // Remote IRR of a pin as the history has it; None once a level interrupt was accepted while it was set.
  function Irr(trace: seq<Happening>, pin: nat): Option<bool> {
    if trace == [] then Some(false) else
      var n := |trace| - 1;
      IrrNext(Irr(trace[..n], pin), trace[n], pin)
  }

  function IrrNext(irr: Option<bool>, h: Happening, pin: nat): Option<bool> {
    if irr.None? || h.pin != pin then irr
    else match h
         case Accepted(_, control) => if !control.level then irr else if irr.value then None else Some(true)
         case Dropped(_) => irr
         case Cleared(_) => Some(false)
  }

  lemma TraceNext(trace: seq<Happening>, h: Happening)
    ensures Controls(trace + [h]) == Controls(trace) + if h.Accepted? then [h.control] else []
    ensures forall pin :: Irr(trace + [h], pin) == IrrNext(Irr(trace, pin), h, pin)
  {
    assert (trace + [h])[..|trace|] == trace;
  }

  predicate LevelAccept(h: Happening, pin: nat) { h.Accepted? && h.pin == pin && h.control.level }

  // Between two acceptances of a level interrupt of the pin its Remote IRR was cleared.
  lemma {:induction false} OncePerClearing(trace: seq<Happening>, pin: nat, j: nat, k: nat)
    requires Irr(trace, pin).Some?
    requires j < k < |trace| && LevelAccept(trace[j], pin) && LevelAccept(trace[k], pin)
    ensures exists m :: j < m < k && trace[m] == Cleared(pin)
  {
    var n := |trace| - 1;
    if k < n {
      OncePerClearing(trace[..n], pin, j, k);
      var m :| j < m < k && trace[..n][m] == Cleared(pin);
      assert trace[m] == Cleared(pin);
    } else {
      LastClearing(trace[..n], pin, j);
      var m :| j < m < n && trace[..n][m] == Cleared(pin);
      assert trace[m] == Cleared(pin);
    }
  }

  lemma {:induction false} LastClearing(trace: seq<Happening>, pin: nat, j: nat)
    requires Irr(trace, pin) == Some(false) && j < |trace| && LevelAccept(trace[j], pin)
    ensures exists m :: j < m < |trace| && trace[m] == Cleared(pin)
  {
    var n := |trace| - 1;
    if trace[n] != Cleared(pin) {
      LastClearing(trace[..n], pin, j);
      var m :| j < m < n && trace[..n][m] == Cleared(pin);
      assert trace[m] == Cleared(pin);
    }
  }

  predicate PinFits(trace: seq<Happening>, pin: nat, e: bv64) {
    Irr(trace, pin) == Some(Rirr(e)) && (Rirr(e) ==> Level(e))
  }

  class IoApic {
    const redir: array<bv64>
    const line: array<bool>
    // Whether the partition takes the interrupt of the n-th call, and how many calls there were.
    const takes: nat -> bool
    var asked: nat
    var selected: nat
    var pending: seq<Control>
    ghost var delivered: seq<Control>
    ghost var trace: seq<Happening>

    ghost predicate Valid()
      reads this, redir, line
    {
      && redir.Length == PINS && line.Length == PINS && redir as object != line as object
      && |pending| <= MAX_QUEUED + 1
      && Controls(trace) == delivered + pending
      && forall i :: 0 <= i < PINS ==> PinFits(trace, i, redir[i])
    }

    constructor (takes: nat -> bool)
      ensures Valid() && fresh(redir) && fresh(line) && trace == [] && pending == []
      ensures this.takes == takes && asked == 0
      ensures forall i :: 0 <= i < 24 ==> redir[i] == 0x1_0000 && !line[i]
    {
      this.takes, asked := takes, 0;
      redir := new bv64[PINS](_ => 0x1_0000);
      line := new bool[PINS](_ => false);
      selected := 0;
      pending := [];
      delivered, trace := [], [];
    }

    // drain_pending_locked: the front is offered to the partition until the queue is empty or it refuses one.
    method Drain()
      requires Valid()
      modifies `pending, `delivered, `asked
      ensures Valid()
      ensures old(delivered) <= delivered && |delivered| - old(|delivered|) <= old(|pending|)
      ensures var k := |delivered| - old(|delivered|);
        && delivered == old(delivered) + old(pending)[..k] && pending == old(pending)[k..]
        && (forall n :: old(asked) <= n < old(asked) + k ==> takes(n))
        && (pending != [] ==> !takes(old(asked) + k))
      ensures Drained(old(pending), old(delivered), old(asked))
    {
      hide PinFits, Controls;
      ghost var k: nat := 0;
      while pending != []
        invariant Valid() && k <= old(|pending|) && asked == old(asked) + k
        invariant delivered == old(delivered) + old(pending)[..k] && pending == old(pending)[k..]
        invariant forall n :: old(asked) <= n < old(asked) + k ==> takes(n)
        decreases |pending|
      {
        var taken := takes(asked);
        asked := asked + 1;
        if !taken { return; }
        assert delivered + pending == delivered + [pending[0]] + pending[1..];
        delivered := delivered + [pending[0]];
        pending := pending[1..];
        k := k + 1;
      }
    }

    // What draining a queue does: exactly the longest front whose calls all succeed is delivered.
    ghost predicate Drained(queue: seq<Control>, before: seq<Control>, start: nat)
      reads this
    {
      && |before| <= |delivered| && |delivered| - |before| <= |queue|
      && var k := |delivered| - |before|;
      && delivered == before + queue[..k] && pending == queue[k..]
      && (forall n :: start <= n < start + k ==> takes(n))
      && (pending == [] ==> asked == start + k)
      && (pending != [] ==> asked == start + k + 1 && !takes(start + k))
    }

    // request_irq_locked: a wanted interrupt is accepted if there is room, and then offered to the partition
    // behind what waits already. RequestBits says which interrupt that is.
    method Request(pin: nat)
      requires Valid()
      modifies this, redir
      ensures Valid() && selected == old(selected) && |pending| <= old(|pending|) + 1 && old(delivered) <= delivered
      ensures pin < PINS && Wanted(old(redir[pin])) && old(|pending|) <= MAX_QUEUED ==>
        && trace == old(trace) + [Accepted(pin, ControlOf(old(redir[pin]), pin))]
        && redir[..] == old(redir[..])[pin := Raised(old(redir[pin]))]
        && Drained(old(pending) + [ControlOf(old(redir[pin]), pin)], old(delivered), old(asked))
      ensures pin < PINS && Wanted(old(redir[pin])) && old(|pending|) > MAX_QUEUED ==>
        trace == old(trace) + [Dropped(pin)] && redir[..] == old(redir[..])
      ensures !(pin < PINS && Wanted(old(redir[pin]))) ==> trace == old(trace) && redir[..] == old(redir[..])
      ensures !(pin < PINS && Wanted(old(redir[pin])) && old(|pending|) <= MAX_QUEUED) ==>
        pending == old(pending) && delivered == old(delivered)
    {
      hide Rirr, Level, Masked, Lowered, Raised, ControlOf, PinFits, Controls, Drained;
      if pin >= PINS { return; }
      var e := redir[pin];
      if Masked(e) { return; }
      if Level(e) && Rirr(e) { return; }
      if |pending| > MAX_QUEUED {
        Drop(pin);
        return;
      }
      Accept(pin);
    }

    ghost method Drop(pin: nat)
      requires Valid()
      modifies `trace
      ensures Valid() && trace == old(trace) + [Dropped(pin)]
    {
      hide Rirr, Level, Irr, Controls;
      TraceNext(trace, Dropped(pin));
      trace := trace + [Dropped(pin)];
    }

    method Accept(pin: nat)
      requires Valid() && pin < PINS && Wanted(redir[pin]) && |pending| <= MAX_QUEUED
      modifies this, redir
      ensures Valid() && selected == old(selected) && |pending| <= old(|pending|) + 1 && old(delivered) <= delivered
      ensures trace == old(trace) + [Accepted(pin, ControlOf(old(redir[pin]), pin))]
      ensures redir[..] == old(redir[..])[pin := Raised(old(redir[pin]))]
      ensures Drained(old(pending) + [ControlOf(old(redir[pin]), pin)], old(delivered), old(asked))
    {
      hide Rirr, Level, Masked, Lowered, Raised, ControlOf, Irr, Controls;
      var e := redir[pin];
      ghost var h := Accepted(pin, ControlOf(e, pin));
      TraceNext(trace, h);
      RaisedBits(e);
      ControlLevel(e, pin);
      if Level(e) { redir[pin] := Raised(e); }
      pending := pending + [ControlOf(e, pin)];
      trace := trace + [h];
      Drain();
    }

    // set_irq: the line changes; a high line requests its interrupt.
    method SetLine(pin: nat, high: bool)
      requires Valid()
      modifies this, redir, line
      ensures Valid() && selected == old(selected)
      ensures line[..] == if pin < PINS then old(line[..])[pin := high] else old(line[..])
      ensures pin < PINS && high && Wanted(old(redir[pin])) && old(|pending|) <= MAX_QUEUED ==>
        && trace == old(trace) + [Accepted(pin, ControlOf(old(redir[pin]), pin))]
        && redir[..] == old(redir[..])[pin := Raised(old(redir[pin]))]
      ensures pin < PINS && high && Wanted(old(redir[pin])) && old(|pending|) > MAX_QUEUED ==>
        trace == old(trace) + [Dropped(pin)] && redir[..] == old(redir[..])
      ensures !(pin < PINS && high && Wanted(old(redir[pin]))) ==> trace == old(trace) && redir[..] == old(redir[..])
    {
      hide Rirr, Level, Masked, Lowered, Raised, ControlOf, Irr, Controls;
      if pin >= PINS { return; }
      line[pin] := high;
      if high { Request(pin); }
    }

    // A guest write to the register that IOREGSEL selects. Only a request that it lets through, because it
    // unmasks a pin whose line is high, can set Remote IRR.
    method WriteReg(value: bv64)
      requires Valid() && value <= 0xFFFF_FFFF
      modifies this, redir
      ensures Valid() && selected == old(selected)
      ensures !(0x10 <= selected < 0x10 + 2 * PINS) ==> redir[..] == old(redir[..]) && trace == old(trace)
      ensures 0x10 <= selected < 0x10 + 2 * PINS && selected % 2 == 1 ==>
        var pin := (selected - 0x10) / 2;
        redir[..] == old(redir[..])[pin := HighWritten(old(redir[pin]), value)] && trace == old(trace)
      ensures 0x10 <= selected < 0x10 + 2 * PINS && selected % 2 == 0 ==>
        var pin := (selected - 0x10) / 2;
        Written(pin, old(redir[..]), LowWritten(old(redir[pin]), value), old(trace), redir[..], trace, line[pin],
            old(|pending|) <= MAX_QUEUED)
    {
      hide Rirr, Written, LowWritten, HighWritten, Irr, Controls;
      if 0x10 <= selected < 0x10 + 2 * PINS {
        if selected % 2 == 1 {
          WriteHigh((selected - 0x10) / 2, value);
        } else {
          WriteLow((selected - 0x10) / 2, value);
        }
      }
    }

    method WriteHigh(pin: nat, value: bv64)
      requires Valid() && pin < PINS
      modifies redir
      ensures Valid() && redir[..] == old(redir[..])[pin := HighWritten(old(redir[pin]), value)]
    {
      hide Rirr, Level, Irr, Controls, HighWritten;
      HighWrittenBits(redir[pin], value);
      redir[pin] := HighWritten(redir[pin], value);
    }

    method WriteLow(pin: nat, value: bv64)
      requires Valid() && pin < PINS && value <= 0xFFFF_FFFF
      modifies this, redir
      ensures Valid() && selected == old(selected)
      ensures Written(pin, old(redir[..]), LowWritten(old(redir[pin]), value), old(trace), redir[..], trace, line[pin],
                      old(|pending|) <= MAX_QUEUED)
    {
      hide Rirr, Level, LowWritten, Written;
      LowWrittenMode(redir[pin], value);
      LowWrittenRirr(redir[pin], value);
      SetEntry(pin, LowWritten(redir[pin], value));
    }

    // The part of write_reg after the new low half w is known.
    method SetEntry(pin: nat, w: bv64)
      requires Valid() && pin < PINS && (Rirr(w) ==> Rirr(redir[pin]) && Level(w))
      modifies this, redir
      ensures Valid() && selected == old(selected)
      ensures Written(pin, old(redir[..]), w, old(trace), redir[..], trace, line[pin], old(|pending|) <= MAX_QUEUED)
    {
      hide Rirr, Level, Masked, Raised, ControlOf, StoreTrace, PinFits, Controls;
      var e := redir[pin];
      StoreEntry(pin, w);
      if Masked(e) && !Masked(w) && line[pin] { Request(pin); }
    }

    // The store of w, and what it means for Remote IRR.
    method StoreEntry(pin: nat, w: bv64)
      requires Valid() && pin < PINS && (Rirr(w) ==> Rirr(redir[pin]) && Level(w))
      modifies redir, `trace
      ensures Valid() && redir[..] == old(redir[..])[pin := w]
      ensures trace == StoreTrace(old(trace), pin, old(redir[pin]), w)
    {
      hide Rirr, Level, Irr, Controls;
      var e := redir[pin];
      redir[pin] := w;
      if Rirr(e) && !Rirr(w) { Clear(pin); }
    }

    ghost method Clear(pin: nat)
      modifies `trace
      ensures trace == old(trace) + [Cleared(pin)] && Controls(trace) == Controls(old(trace))
      ensures forall i :: Irr(trace, i) == IrrNext(Irr(old(trace), i), Cleared(pin), i)
    {
      TraceNext(trace, Cleared(pin));
      trace := trace + [Cleared(pin)];
    }

    method WriteMmio(offset: u32, value: bv64, len: nat)
      requires Valid() && value <= 0xFFFF_FFFF
      modifies this, redir
      ensures Valid()
      ensures selected == if len == 4 && offset == 0 then (value & 0xFF) as nat else old(selected)
      ensures !(len == 4 && offset == 0x10 && 0x10 <= old(selected) < 0x10 + 2 * PINS) ==>
        redir[..] == old(redir[..]) && trace == old(trace)
      ensures len == 4 && offset == 0x10 && 0x10 <= old(selected) < 0x10 + 2 * PINS && old(selected) % 2 == 1 ==>
        var pin := (old(selected) - 0x10) / 2;
        redir[..] == old(redir[..])[pin := HighWritten(old(redir[pin]), value)] && trace == old(trace)
      ensures len == 4 && offset == 0x10 && 0x10 <= old(selected) < 0x10 + 2 * PINS && old(selected) % 2 == 0 ==>
        var pin := (old(selected) - 0x10) / 2;
        Written(pin, old(redir[..]), LowWritten(old(redir[pin]), value), old(trace), redir[..], trace, line[pin],
            old(|pending|) <= MAX_QUEUED)
    {
      hide Rirr, Written, LowWritten, HighWritten, Irr, Controls;
      if len != 4 { return; }
      if offset == 0 {
        selected := (value & 0xFF) as nat;
      } else if offset == 0x10 {
        WriteReg(value);
      }
    }

    // eoi: every level pin of this vector with Remote IRR set is cleared, in pin order, and requested again
    // if its line is still high and it is not masked; no other entry changes. A request is dropped only where
    // what waited before and what was accepted since fill the queue.
    method Eoi(vector: u32)
      requires Valid()
      modifies this, redir
      ensures Valid() && selected == old(selected)
      ensures exists evs :: trace == old(trace) + evs && EoiTrace(old(redir[..]), line[..], vector % 0x100, PINS, evs)
                            && DropsWhenFull(evs, old(|pending|))
      ensures forall i :: 0 <= i < PINS ==> EntryEnded(old(redir[i]), redir[i], i, vector % 0x100)
    {
      var _ := EndPins(vector);
      Drain();
    }

    // The loop over the pins.
    method EndPins(vector: u32) returns (ghost evs: seq<Happening>)
      requires Valid()
      modifies this, redir
      ensures Valid() && selected == old(selected)
      ensures trace == old(trace) + evs && EoiTrace(old(redir[..]), line[..], vector % 0x100, PINS, evs)
      ensures DropsWhenFull(evs, old(|pending|))
      ensures forall i :: 0 <= i < PINS ==> EntryEnded(old(redir[i]), redir[i], i, vector % 0x100)
    {
      hide Rirr, Level, Masked, Lowered, Raised, ControlOf, PinFits, Controls, Vector, DropsWhenFull, Ends, EntryEnded;
      hide Happenings, PinTrace, EoiTrace;
      NothingEnded(old(redir[..]), line[..], vector % 0x100);
      NoneDropped(|pending|);
      evs := [];
      for i := 0 to PINS
        invariant Valid() && selected == old(selected)
        invariant trace == old(trace) + evs && EoiTrace(old(redir[..]), line[..], vector % 0x100, i, evs)
        invariant DropsWhenFull(evs, old(|pending|)) && |pending| <= old(|pending|) + |Controls(evs)|
        invariant old(|pending|) > MAX_QUEUED ==> |pending| > MAX_QUEUED
        invariant forall j :: i <= j < PINS ==> redir[j] == old(redir[j])
        invariant forall j :: 0 <= j < i ==> EntryEnded(old(redir[j]), redir[j], j, vector % 0x100)
      {
        ghost var waiting := |pending|;
        ghost var more := EndPin(i, vector);
        StillDropsWhenFull(evs, more, old(|pending|), waiting, i);
        EoiTraceNext(old(redir[..]), line[..], vector % 0x100, i, evs, more);
        evs := evs + more;
      }
    }

    method EndPin(i: nat, vector: u32) returns (ghost more: seq<Happening>)
      requires Valid() && i < PINS
      modifies this, redir
      ensures Valid() && selected == old(selected)
      ensures trace == old(trace) + more && |more| == Happenings(old(redir[i]), line[i], i, vector % 0x100)
      ensures PinTrace(old(redir[i]), i, more)
      ensures |more| <= 2 && (|more| > 0 ==> more[0] == Cleared(i))
      ensures |more| == 2 ==> more[1].Dropped? || more[1].Accepted?
      ensures |more| == 2 ==> (more[1].Dropped? <==> old(|pending|) > MAX_QUEUED)
      ensures |pending| <= old(|pending|) + (if |more| == 2 && more[1].Accepted? then 1 else 0)
      ensures old(|pending|) > MAX_QUEUED ==> |pending| > MAX_QUEUED
      ensures forall j :: 0 <= j < PINS && j != i ==> redir[j] == old(redir[j])
      ensures EntryEnded(old(redir[i]), redir[i], i, vector % 0x100)
    {
      hide Rirr, Level, Masked, Lowered, Raised, ControlOf, PinFits, Controls, Vector, Drained, Wanted;
      var e := redir[i];
      more := [];
      if Ends(e, i, vector % 0x100) {
        LoweredBits(e);
        RaisedBits(Lowered(e));
        LoweredWanted(e);
        LowerEntry(i);
        more := [Cleared(i)];
        if line[i] && !Masked(redir[i]) {
          Request(i);
          more := [Cleared(i), trace[|trace| - 1]];
        }
      }
    }

    // Remote IRR of the pin is cleared.
    method LowerEntry(i: nat)
      requires Valid() && i < PINS
      modifies redir, `trace
      ensures Valid() && redir[..] == old(redir[..])[i := Lowered(old(redir[i]))] && trace == old(trace) + [Cleared(i)]
    {
      hide Rirr, Level, Masked, Lowered, Controls;
      LoweredIrr(redir[i]);
      redir[i] := Lowered(redir[i]);
      Clear(i);
    }
  }

  // The history once the entry e of the pin is overwritten by w.
  function StoreTrace(before: seq<Happening>, pin: nat, e: bv64, w: bv64): seq<Happening> {
    if Rirr(e) && !Rirr(w) then before + [Cleared(pin)] else before
  }

  predicate Ends(e: bv64, pin: nat, vector: int) { Level(e) && Rirr(e) && Vector(e, pin) == vector }

  // Only a matching entry changes, and of it only Remote IRR.
  predicate EntryEnded(was: bv64, now: bv64, pin: nat, vector: int) {
    if Ends(was, pin, vector) then Lowered(now) == Lowered(was) else now == was
  }

  // The entry e of the pin became w by a write of its low half, which may have asked for an interrupt.
  ghost predicate Written(pin: nat, was: seq<bv64>, w: bv64, before: seq<Happening>, now: seq<bv64>,
                          after: seq<Happening>, high: bool, room: bool)
    requires pin < |was|
  {
    var lowered := StoreTrace(before, pin, was[pin], w);
    if Masked(was[pin]) && high && Wanted(w) then
      if room then after == lowered + [Accepted(pin, ControlOf(w, pin))] && now == was[pin := Raised(w)]
      else after == lowered + [Dropped(pin)] && now == was[pin := w]
    else
      after == lowered && now == was[pin := w]
  }

  // How many entries an end of interrupt adds to the history for one pin, and which.
  function Happenings(e: bv64, high: bool, pin: nat, vector: int): nat {
    if !Ends(e, pin, vector) then 0 else if high && !Masked(e) then 2 else 1
  }

  predicate PinTrace(e: bv64, pin: nat, evs: seq<Happening>) {
    && (|evs| > 0 ==> evs[0] == Cleared(pin))
    && (|evs| > 1 ==> evs[1] == Accepted(pin, ControlOf(Lowered(e), pin)) || evs[1] == Dropped(pin))
  }

  // A request was dropped only with more than MAX_QUEUED waiting, and with a full queue none was accepted.
  predicate DropsWhenFull(evs: seq<Happening>, waiting: nat) {
    && (forall j :: 0 <= j < |evs| && evs[j].Dropped? ==> waiting + |Controls(evs[..j])| > MAX_QUEUED)
    && (waiting > MAX_QUEUED ==> Controls(evs) == [])
  }

  lemma NoneDropped(waiting: nat)
    ensures DropsWhenFull([], waiting) && Controls([]) == []
  {
  }

  lemma StillDropsWhenFull(evs: seq<Happening>, more: seq<Happening>, waiting: nat, now: nat, pin: nat)
    requires DropsWhenFull(evs, waiting) && now <= waiting + |Controls(evs)| && |more| <= 2
    requires |more| > 0 ==> more[0] == Cleared(pin)
    requires |more| == 2 ==> (more[1].Dropped? <==> now > MAX_QUEUED)
    requires |more| == 2 ==> more[1].Dropped? || more[1].Accepted?
    requires waiting > MAX_QUEUED ==> now > MAX_QUEUED
    ensures DropsWhenFull(evs + more, waiting)
    ensures |Controls(evs + more)| == |Controls(evs)| + (if |more| == 2 && more[1].Accepted? then 1 else 0)
  {
    hide Controls;
    if more == [] {
      assert evs + more == evs;
    } else {
      TraceNext(evs, more[0]);
      if |more| == 2 {
        TraceNext(evs + [more[0]], more[1]);
        assert evs + more == evs + [more[0]] + [more[1]];
        assert (evs + more)[..|evs| + 1] == evs + [more[0]];
      } else {
        assert evs + more == evs + [more[0]];
      }
      forall j | 0 <= j < |evs| ensures (evs + more)[..j] == evs[..j] {}
    }
  }

  // The same for the pins below n, in pin order.
  ghost predicate EoiTrace(redir: seq<bv64>, line: seq<bool>, vector: int, n: nat, evs: seq<Happening>)
    requires n <= |redir| && n <= |line|
  {
    if n == 0 then evs == [] else
      var i := n - 1;
      var k := |evs| - Happenings(redir[i], line[i], i, vector);
      k >= 0 && PinTrace(redir[i], i, evs[k..]) && EoiTrace(redir, line, vector, i, evs[..k])
  }

  lemma NothingEnded(redir: seq<bv64>, line: seq<bool>, vector: int)
    ensures EoiTrace(redir, line, vector, 0, [])
  {
  }

  lemma EoiTraceNext(redir: seq<bv64>, line: seq<bool>, vector: int, n: nat, evs: seq<Happening>, more: seq<Happening>)
    requires n < |redir| && n < |line| && EoiTrace(redir, line, vector, n, evs)
    requires |more| == Happenings(redir[n], line[n], n, vector) && PinTrace(redir[n], n, more)
    ensures EoiTrace(redir, line, vector, n + 1, evs + more)
  {
    hide Happenings, PinTrace;
    assert (evs + more)[..|evs|] == evs && (evs + more)[|evs|..] == more;
  }

  // What every method keeps: Remote IRR is set only on level pins, accepted interrupts are delivered in
  // FIFO order and at most 65 wait, and a level pin was accepted at most once between clearings.
  lemma Guarantees(chip: IoApic)
    requires chip.Valid()
    ensures forall pin :: 0 <= pin < PINS && Rirr(chip.redir[pin]) ==> Level(chip.redir[pin])
    ensures chip.delivered <= Controls(chip.trace) && chip.pending == Controls(chip.trace)[|chip.delivered|..]
    ensures |chip.pending| <= 65
    ensures forall pin, j, k ::
      0 <= pin < PINS && 0 <= j < k < |chip.trace| && LevelAccept(chip.trace[j], pin) && LevelAccept(chip.trace[k], pin)
      ==> exists m :: j < m < k && chip.trace[m] == Cleared(pin)
  {
    forall pin, j, k | 0 <= pin < PINS && 0 <= j < k < |chip.trace| && LevelAccept(chip.trace[j], pin)
        && LevelAccept(chip.trace[k], pin)
      ensures exists m :: j < m < k && chip.trace[m] == Cleared(pin)
    {
      assert PinFits(chip.trace, pin, chip.redir[pin]);
      OncePerClearing(chip.trace, pin, j, k);
    }
  }
}
