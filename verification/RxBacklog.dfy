// The WHP network device's receive backlog (native/whp/backend.cc:1528-1533, 1897-1904, 2063-2112,
// 2326-2341): frames that slirp sends while it holds Slirp::mu_, and flushes that any guest kick starts,
// interleaved at the granularity of the locked steps on VirtioNet::mu_.
module RxBacklog {
  import opened Bytes

  type Frame = seq<byte>

  const BACKLOG_LIMIT: nat := 256

  // Where a thread stands. sender says whether the flush was called from deliver_rx_packet, under Slirp::mu_.
  datatype Pc =
    | Idle
    | Holding                                  // holds Slirp::mu_ inside libslirp
    | Looking(frame: Frame)                    // deliver_rx_packet, before its first locked step
    | Direct(frame: Frame)                     // inside deliver_rx_packet_now, called from deliver_rx_packet
    | Queueing(frame: Frame)                   // before the locked push_back
    | FlushEntry(sender: bool)                 // flush_rx_backlog, before testing rx_flush_active_
    | FlushPeek(sender: bool)                  // before looking at the front
    | FlushDeliver(sender: bool, frame: Frame) // inside deliver_rx_packet_now, called from the flush loop
    | FlushGiveUp(sender: bool)                // delivery failed, before clearing rx_flush_active_
    | FlushPop(sender: bool)                   // delivered, before the locked pop_front

  // backlog and flushActive are the device's fields, slirpOwner the holder of Slirp::mu_. The rest is
  // history: the frames slirp sent, whether each completed send was accepted, the frames for which
  // deliver_rx_packet_now returned true, the thread that set rx_flush_active_, and whether that thread
  // has delivered the front frame without having popped it yet.
  datatype State = State(
    pcs: seq<Pc>,
    slirpOwner: Option<nat>,
    flushActive: bool,
    backlog: seq<Frame>,
    sent: seq<Frame>,
    fates: seq<bool>,
    finished: seq<Frame>,
    flusher: Option<nat>,
    popDue: bool)

  function Init(threads: nat): State {
    State(seq(threads, _ => Idle), None, false, [], [], [], [], None, false)
  }

  datatype Act = Kick | Lock | Send(frame: Frame) | Unlock | Go | Outcome(delivered: bool)

  function After(sender: bool): Pc { if sender then Holding else Idle }

  // One step of thread t; None when t cannot take that step.
  function Step(s: State, t: nat, a: Act): Option<State>
    requires t < |s.pcs|
  {
    match (s.pcs[t], a)
    case (Idle, Kick) => Some(s.(pcs := s.pcs[t := FlushEntry(false)]))
    case (Idle, Lock) => if s.slirpOwner == None then Some(s.(pcs := s.pcs[t := Holding], slirpOwner := Some(t)))
        else None
    case (Holding, Unlock) => Some(s.(pcs := s.pcs[t := Idle], slirpOwner := None))
    case (Holding, Send(f)) => Some(s.(pcs := s.pcs[t := Looking(f)], sent := s.sent + [f]))
    case (Looking(f), Go) => Some(s.(pcs := s.pcs[t := if s.backlog == [] then Direct(f) else Queueing(f)]))
    case (Direct(f), Outcome(ok)) =>
      if ok then Some(s.(pcs := s.pcs[t := FlushEntry(true)], fates := s.fates + [true], finished := s.finished + [f]))
      else Some(s.(pcs := s.pcs[t := Queueing(f)]))
    case (Queueing(f), Go) =>
      if |s.backlog| < BACKLOG_LIMIT then
        Some(s.(pcs := s.pcs[t := FlushEntry(true)], fates := s.fates + [true], backlog := s.backlog + [f]))
      else
        Some(s.(pcs := s.pcs[t := FlushEntry(true)], fates := s.fates + [false]))
    case (FlushEntry(b), Go) =>
      if s.flushActive then Some(s.(pcs := s.pcs[t := After(b)]))
      else Some(s.(pcs := s.pcs[t := FlushPeek(b)], flushActive := true, flusher := Some(t)))
    case (FlushPeek(b), Go) =>
      if s.backlog == [] then Some(s.(pcs := s.pcs[t := After(b)], flushActive := false, flusher := None))
      else Some(s.(pcs := s.pcs[t := FlushDeliver(b, s.backlog[0])]))
    case (FlushDeliver(b, f), Outcome(ok)) =>
      if ok then Some(s.(pcs := s.pcs[t := FlushPop(b)], finished := s.finished + [f], popDue := true))
          else Some(s.(pcs := s.pcs[t := FlushGiveUp(b)]))
    case (FlushGiveUp(b), Go) => Some(s.(pcs := s.pcs[t := After(b)], flushActive := false, flusher := None))
    case (FlushPop(b), Go) =>
      Some(s.(pcs := s.pcs[t := FlushPeek(b)], backlog := if s.backlog == [] then []
          else s.backlog[1..], popDue := false))
    case _ => None
  }

  // A run: threads and steps in the order the scheduler picked them.
  function Exec(s: State, steps: seq<(nat, Act)>): Option<State>
  {
    if steps == [] then Some(s) else
      match Exec(s, steps[..|steps| - 1])
      case None => None
      case Some(m) =>
        var (t, a) := steps[|steps| - 1];
        if t < |m.pcs| then Step(m, t, a) else None
  }

  // ---- What holds ----

  predicate InDelivery(pc: Pc) { pc.Direct? || pc.FlushDeliver? }

  predicate Flushing(pc: Pc) { pc.FlushPeek? || pc.FlushDeliver? || pc.FlushGiveUp? || pc.FlushPop? }

  predicate UnderSlirp(pc: Pc) {
    match pc
    case Idle => false
    case FlushEntry(b) => b
    case FlushPeek(b) => b
    case FlushDeliver(b, _) => b
    case FlushGiveUp(b) => b
    case FlushPop(b) => b
    case _ => true
  }

  // The frame that slirp has sent and whose fate is still open.
  predicate InTransit(pc: Pc) { pc.Looking? || pc.Direct? || pc.Queueing? }

  // The frames whose fate is "accepted", in slirp's send order.
  function Accepted(sent: seq<Frame>, fates: seq<bool>): seq<Frame>
    requires |fates| <= |sent|
  {
    if fates == [] then [] else
      var n := |fates| - 1;
      Accepted(sent, fates[..n]) + if fates[n] then [sent[n]] else []
  }

  // Frames finished or waiting; one that is finished but not yet popped counts once.
  function Accounted(s: State): seq<Frame> {
    s.finished + if s.popDue && s.backlog != [] then s.backlog[1..] else s.backlog
  }

  // Slirp::mu_ is a mutex: its holder is the one thread inside libslirp.
  ghost predicate SlirpHeld(s: State) {
    && (s.slirpOwner.Some? ==> s.slirpOwner.value < |s.pcs|)
    && forall t :: 0 <= t < |s.pcs| ==> (UnderSlirp(s.pcs[t]) <==> s.slirpOwner == Some(t))
  }

  // rx_flush_active_ works as a lock: the thread that set it is the one thread in the flush loop.
  ghost predicate FlushHeld(s: State) {
    && s.flushActive == s.flusher.Some?
    && (s.flusher.Some? ==> s.flusher.value < |s.pcs| && s.popDue == s.pcs[s.flusher.value].FlushPop?)
    && (s.popDue ==> s.flusher.Some?)
    && forall t :: 0 <= t < |s.pcs| ==> (Flushing(s.pcs[t]) <==> s.flusher == Some(t))
  }

  ghost predicate Owners(s: State) { SlirpHeld(s) && FlushHeld(s) }

  // What the backlog must hold while a thread stands at pc.
  predicate Stands(pc: Pc, backlog: seq<Frame>) {
    match pc
    case Direct(_) => backlog == []
    case FlushDeliver(_, f) => backlog != [] && backlog[0] == f
    case FlushPop(_) => backlog != []
    case _ => true
  }

  ghost predicate Standing(s: State) {
    && |s.backlog| <= BACKLOG_LIMIT
    && forall t :: 0 <= t < |s.pcs| ==> Stands(s.pcs[t], s.backlog)
  }

  // The open send, if any, is the last frame slirp sent.
  ghost predicate OpenSend(s: State)
    requires SlirpHeld(s)
  {
    var open := s.slirpOwner.Some? && InTransit(s.pcs[s.slirpOwner.value]);
    && |s.sent| == |s.fates| + (if open then 1 else 0)
    && (open ==> s.pcs[s.slirpOwner.value].frame == s.sent[|s.sent| - 1])
  }

  ghost predicate Inv(s: State) {
    Owners(s) && Standing(s) && OpenSend(s) && Accounted(s) == Accepted(s.sent, s.fates)
  }

  lemma InitInv(threads: nat)
    ensures Inv(Init(threads))
  {
  }

  lemma {:induction false} AcceptedExtend(sent: seq<Frame>, more: seq<Frame>, fates: seq<bool>)
    requires |fates| <= |sent|
    ensures Accepted(sent + more, fates) == Accepted(sent, fates)
  {
    if fates != [] { AcceptedExtend(sent, more, fates[..|fates| - 1]); }
  }

  lemma AcceptedStep(sent: seq<Frame>, fates: seq<bool>, fate: bool)
    requires |fates| < |sent|
    ensures Accepted(sent, fates + [fate]) == Accepted(sent, fates) + if fate then [sent[|fates|]] else []
  {
    assert (fates + [fate])[..|fates|] == fates;
  }

  // Taking and releasing Slirp::mu_ is what moves a thread in and out of libslirp.
  lemma LockEffect(s: State, t: nat, a: Act)
    requires t < |s.pcs| && Step(s, t, a).Some?
    ensures var s' := Step(s, t, a).value;
      && s'.pcs == s.pcs[t := s'.pcs[t]]
      && s'.slirpOwner == (if a == Lock then Some(t) else if a == Unlock then None else s.slirpOwner)
      && (a == Lock ==> s.slirpOwner == None)
      && UnderSlirp(s'.pcs[t]) == (a == Lock || (UnderSlirp(s.pcs[t]) && a != Unlock))
      && (a == Unlock ==> UnderSlirp(s.pcs[t]))
  {
  }

  lemma StepSlirpHeld(s: State, t: nat, a: Act)
    requires SlirpHeld(s) && t < |s.pcs| && Step(s, t, a).Some?
    ensures SlirpHeld(Step(s, t, a).value)
  {
    LockEffect(s, t, a);
    hide Step;
    var s' := Step(s, t, a).value;
    forall u | 0 <= u < |s'.pcs| ensures UnderSlirp(s'.pcs[u]) <==> s'.slirpOwner == Some(u) {
      assert UnderSlirp(s.pcs[u]) <==> s.slirpOwner == Some(u);
      assert UnderSlirp(s.pcs[t]) <==> s.slirpOwner == Some(t);
    }
  }

  // Setting and clearing rx_flush_active_ is what moves a thread in and out of the flush loop.
  lemma FlushEffect(s: State, t: nat, a: Act)
    requires t < |s.pcs| && Step(s, t, a).Some? && (Flushing(s.pcs[t]) ==> s.popDue == s.pcs[t].FlushPop?)
    ensures var s' := Step(s, t, a).value;
      && s'.pcs == s.pcs[t := s'.pcs[t]]
      && (Flushing(s.pcs[t]) && Flushing(s'.pcs[t]) ==> s'.popDue == s'.pcs[t].FlushPop?)
      && (!(Flushing(s.pcs[t]) && Flushing(s'.pcs[t])) ==> s'.popDue == s.popDue && !s.pcs[t].FlushPop?
                                                           && !s'.pcs[t].FlushPop?)
      && (Flushing(s.pcs[t]) == Flushing(s'.pcs[t]) ==> s'.flushActive == s.flushActive && s'.flusher == s.flusher)
      && (Flushing(s.pcs[t]) && !Flushing(s'.pcs[t]) ==> !s'.flushActive && s'.flusher == None)
      && (!Flushing(s.pcs[t]) && Flushing(s'.pcs[t]) ==> !s.flushActive && s'.flushActive && s'.flusher == Some(t))
  {
  }

  lemma StepFlushHeld(s: State, t: nat, a: Act)
    requires FlushHeld(s) && t < |s.pcs| && Step(s, t, a).Some?
    ensures FlushHeld(Step(s, t, a).value)
  {
    hide Step, Flushing;
    assert Flushing(s.pcs[t]) <==> s.flusher == Some(t);
    FlushEffect(s, t, a);
    var s' := Step(s, t, a).value;
    forall u | 0 <= u < |s'.pcs| ensures Flushing(s'.pcs[u]) <==> s'.flusher == Some(u) {
      assert Flushing(s.pcs[u]) <==> s.flusher == Some(u);
    }
  }

  lemma StepStanding(s: State, t: nat, a: Act)
    requires Owners(s) && Standing(s) && t < |s.pcs| && Step(s, t, a).Some?
    ensures Standing(Step(s, t, a).value)
  {
    var s' := Step(s, t, a).value;
    forall u | 0 <= u < |s'.pcs| ensures Stands(s'.pcs[u], s'.backlog) {
      assert Stands(s.pcs[u], s.backlog);
    }
  }

  lemma StepInv(s: State, t: nat, a: Act)
    requires Inv(s) && t < |s.pcs| && Step(s, t, a).Some?
    ensures Inv(Step(s, t, a).value)
  {
    hide Step;
    StepSlirpHeld(s, t, a);
    StepFlushHeld(s, t, a);
    StepStanding(s, t, a);
    StepOpenSend(s, t, a);
    StepOrder(s, t, a);
  }

  lemma StepOpenSend(s: State, t: nat, a: Act)
    requires SlirpHeld(s) && OpenSend(s) && t < |s.pcs| && Step(s, t, a).Some?
    requires SlirpHeld(Step(s, t, a).value)
    ensures OpenSend(Step(s, t, a).value)
  {
    assert UnderSlirp(s.pcs[t]) <==> s.slirpOwner == Some(t);
    if UnderSlirp(s.pcs[t]) {
      StepSender(s, t, a);
    } else {
      StepOther(s, t, a);
      hide Step;
    }
  }

  // A step of the thread that holds Slirp::mu_ opens, keeps or settles its send.
  lemma StepSender(s: State, t: nat, a: Act)
    requires t < |s.pcs| && UnderSlirp(s.pcs[t]) && s.slirpOwner == Some(t) && Step(s, t, a).Some?
    ensures var s' := Step(s, t, a).value;
      && |s'.pcs| == |s.pcs|
      && s'.slirpOwner == (if a == Unlock then None else Some(t))
      && (a.Send? ==> InTransit(s'.pcs[t]) && s'.sent == s.sent + [s'.pcs[t].frame] && s'.fates == s.fates)
      && (!a.Send? ==> s'.sent == s.sent)
      && (!a.Send? && InTransit(s'.pcs[t]) ==>
            InTransit(s.pcs[t]) && s'.pcs[t].frame == s.pcs[t].frame && s'.fates == s.fates)
      && (!a.Send? && !InTransit(s'.pcs[t]) ==> |s'.fates| == |s.fates| + (if InTransit(s.pcs[t]) then 1 else 0))
  {
  }

  // A step of any other thread leaves sends alone.
  lemma StepOther(s: State, t: nat, a: Act)
    requires t < |s.pcs| && !UnderSlirp(s.pcs[t]) && Step(s, t, a).Some?
    ensures var s' := Step(s, t, a).value;
      && s'.pcs == s.pcs[t := s'.pcs[t]] && !InTransit(s'.pcs[t])
      && s'.sent == s.sent && s'.fates == s.fates
      && (s'.slirpOwner == s.slirpOwner || (s.slirpOwner == None && s'.slirpOwner == Some(t)))
  {
  }

  // Each step leaves the books balanced: only a decided send or a delivery touches them.
  lemma StepOrder(s: State, t: nat, a: Act)
    requires Inv(s) && t < |s.pcs| && Step(s, t, a).Some?
    ensures var s' := Step(s, t, a).value; |s'.fates| <= |s'.sent| && Accounted(s') == Accepted(s'.sent, s'.fates)
  {
    hide SlirpHeld, OpenSend;
    OpenCount(s, t);
    assert Flushing(s.pcs[t]) <==> s.flusher == Some(t);
    assert Stands(s.pcs[t], s.backlog);
    if InTransit(s.pcs[t]) || s.pcs[t].Holding? {
      SendOrder(s, t, a);
    } else if Flushing(s.pcs[t]) {
      FlushOrder(s, t, a);
    }
  }

  lemma SendOrder(s: State, t: nat, a: Act)
    requires t < |s.pcs| && Step(s, t, a).Some? && (InTransit(s.pcs[t]) || s.pcs[t].Holding?)
    requires Stands(s.pcs[t], s.backlog) && (s.popDue ==> s.backlog != [])
    requires |s.fates| <= |s.sent| && Accounted(s) == Accepted(s.sent, s.fates)
    requires InTransit(s.pcs[t]) ==> |s.sent| == |s.fates| + 1 && s.pcs[t].frame == s.sent[|s.fates|]
    ensures var s' := Step(s, t, a).value; |s'.fates| <= |s'.sent| && Accounted(s') == Accepted(s'.sent, s'.fates)
  {
    hide Accepted;
    if s.pcs[t].Holding? {
      if a.Send? { AcceptedExtend(s.sent, [a.frame], s.fates); }
    } else if s.pcs[t].Direct? {
      AcceptedStep(s.sent, s.fates, true);
    } else if s.pcs[t].Queueing? {
      QueueOrder(s, t);
    }
  }

  // The locked push_back: the frame goes to the back of the backlog, or is refused and counts nowhere.
  lemma QueueOrder(s: State, t: nat)
    requires t < |s.pcs| && s.pcs[t].Queueing?
    requires s.popDue ==> s.backlog != []
    requires |s.sent| == |s.fates| + 1 && s.pcs[t].frame == s.sent[|s.fates|]
    requires Accounted(s) == Accepted(s.sent, s.fates)
    ensures var s' := Step(s, t, Go).value; |s'.fates| <= |s'.sent| && Accounted(s') == Accepted(s'.sent, s'.fates)
  {
    AcceptedStep(s.sent, s.fates, |s.backlog| < BACKLOG_LIMIT);
  }

  lemma FlushOrder(s: State, t: nat, a: Act)
    requires t < |s.pcs| && Step(s, t, a).Some? && Flushing(s.pcs[t])
    requires Stands(s.pcs[t], s.backlog) && s.popDue == s.pcs[t].FlushPop?
    ensures var s' := Step(s, t, a).value; s'.sent == s.sent && s'.fates == s.fates && Accounted(s') == Accounted(s)
  {
  }

  lemma OpenCount(s: State, t: nat)
    requires Inv(s) && t < |s.pcs|
    ensures |s.fates| <= |s.sent|
    ensures InTransit(s.pcs[t]) ==> |s.sent| == |s.fates| + 1 && s.pcs[t].frame == s.sent[|s.fates|]
    ensures s.popDue ==> s.backlog != []
  {
    if s.popDue { assert Stands(s.pcs[s.flusher.value], s.backlog); }
    assert UnderSlirp(s.pcs[t]) <==> s.slirpOwner == Some(t);
  }

  lemma {:induction false} RunInv(threads: nat, steps: seq<(nat, Act)>)
    ensures var r := Exec(Init(threads), steps); r.Some? ==> Inv(r.value) && |r.value.pcs| == threads
  {
    hide Inv;
    if steps == [] {
      InitInv(threads);
    } else {
      RunInv(threads, steps[..|steps| - 1]);
      var m := Exec(Init(threads), steps[..|steps| - 1]);
      var (t, a) := steps[|steps| - 1];
      if m.Some? && t < |m.value.pcs| && Step(m.value, t, a).Some? { StepInv(m.value, t, a); }
    }
  }

  // At every point of every run, with any number of threads: one thread at most is delivering; the
  // backlog is bounded; and finished frames followed by the backlog are exactly the accepted frames in
  // slirp's send order, so nothing is reordered, duplicated or lost after acceptance.
  lemma BacklogOrder(threads: nat, steps: seq<(nat, Act)>, s: State)
    requires Exec(Init(threads), steps) == Some(s)
    ensures |s.pcs| == threads
    ensures forall t, u :: 0 <= t < threads && 0 <= u < threads && InDelivery(s.pcs[t]) && InDelivery(s.pcs[u]) ==> t == u
    ensures |s.backlog| <= 256
    ensures |s.fates| <= |s.sent| <= |s.fates| + 1
    ensures Accounted(s) == Accepted(s.sent, s.fates)
    ensures s.finished <= Accepted(s.sent, s.fates)
    ensures (forall t :: 0 <= t < threads ==> !s.pcs[t].FlushPop?) ==> s.finished + s.backlog == Accepted(s.sent, s.fates)
  {
    hide Exec;
    RunInv(threads, steps);
    forall t, u | 0 <= t < threads && 0 <= u < threads && InDelivery(s.pcs[t]) && InDelivery(s.pcs[u])
      ensures t == u
    {
      assert Stands(s.pcs[t], s.backlog) && Stands(s.pcs[u], s.backlog);
      assert UnderSlirp(s.pcs[t]) <==> s.slirpOwner == Some(t);
      assert UnderSlirp(s.pcs[u]) <==> s.slirpOwner == Some(u);
    }
    if s.popDue { assert s.pcs[s.flusher.value].FlushPop?; }
  }

  // ---- When a frame is refused ----

  // The locked push_back, by its effect.
  lemma QueueEffect(s: State, t: nat)
    requires t < |s.pcs| && s.pcs[t].Queueing?
    ensures Step(s, t, Go).Some?
    ensures var s' := Step(s, t, Go).value;
            if |s.backlog| < 256 then s'.backlog == s.backlog + [s.pcs[t].frame] && s'.fates == s.fates + [true]
            else s'.backlog == s.backlog && s'.fates == s.fates + [false]
  {
  }

  // A frame that finds no backlog is offered at once, and one that the guest takes is accepted and finished.
  lemma SendEffect(s: State, t: nat)
    requires t < |s.pcs|
    ensures s.pcs[t].Looking? ==>
      && Step(s, t, Go).Some?
      && Step(s, t, Go).value.pcs[t] == if s.backlog == [] then Direct(s.pcs[t].frame) else Queueing(s.pcs[t].frame)
    ensures s.pcs[t].Direct? ==>
      && Step(s, t, Outcome(true)).Some?
      && Step(s, t, Outcome(true)).value.finished == s.finished + [s.pcs[t].frame]
      && Step(s, t, Outcome(true)).value.fates == s.fates + [true]
  {
  }

  lemma FateStep(s: State, t: nat, a: Act)
    requires t < |s.pcs| && Step(s, t, a).Some?
    ensures var s' := Step(s, t, a).value;
      && s.sent <= s'.sent && s.fates <= s'.fates && |s'.fates| <= |s.fates| + 1
      && (|s'.fates| > |s.fates| && !s'.fates[|s.fates|] ==> s.pcs[t].Queueing? && |s.backlog| >= 256)
  {
  }

  // Over every run: a frame is dropped only where 256 frames wait at that moment.
  lemma {:induction false} RefusedFull(threads: nat, steps: seq<(nat, Act)>, s: State, j: nat) returns (n: nat, m: State)
    requires Exec(Init(threads), steps) == Some(s) && j < |s.fates| && !s.fates[j]
    ensures n < |steps| && Exec(Init(threads), steps[..n]) == Some(m) && |m.backlog| == 256 && |m.fates| == j < |s.sent|
    ensures steps[n].0 < |m.pcs| && m.pcs[steps[n].0] == Queueing(s.sent[j])
  {
    hide Step;
    var last := |steps| - 1;
    var (t, a) := steps[last];
    var v := Exec(Init(threads), steps[..last]).value;
    FateStep(v, t, a);
    RunInv(threads, steps[..last]);
    OpenCount(v, t);
    if j < |v.fates| {
      n, m := RefusedFull(threads, steps[..last], v, j);
      assert steps[..last][..n] == steps[..n];
      assert v.sent[j] == s.sent[j];
    } else {
      n, m := last, v;
      assert s.sent[j] == v.sent[j];
    }
  }

  // ---- A flush that meets no obstacle ----

  lemma {:induction false} ExecConcat(s: State, xs: seq<(nat, Act)>, ys: seq<(nat, Act)>)
    requires Exec(s, xs).Some?
    ensures Exec(s, xs + ys) == Exec(Exec(s, xs).value, ys)
  {
    if ys == [] {
      assert xs + ys == xs;
    } else {
      assert (xs + ys)[..|xs + ys| - 1] == xs + ys[..|ys| - 1];
      ExecConcat(s, xs, ys[..|ys| - 1]);
    }
  }

  lemma OneStep(s: State, t: nat, a: Act)
    requires t < |s.pcs|
    ensures Exec(s, [(t, a)]) == Step(s, t, a)
  {
    assert [(t, a)][..0] == [];
  }

  // One turn of the flush loop with a delivery that succeeds: the front frame is finished and gone.
  lemma FlushTurn(s: State, t: nat) returns (steps: seq<(nat, Act)>, r: State)
    requires t < |s.pcs| && s.pcs[t].FlushPeek? && s.backlog != [] && !s.popDue
    ensures Exec(s, steps) == Some(r)
    ensures r == s.(backlog := s.backlog[1..], finished := s.finished + [s.backlog[0]])
  {
    hide Exec;
    var b, f := s.pcs[t].sender, s.backlog[0];
    var s1 := s.(pcs := s.pcs[t := FlushDeliver(b, f)]);
    var s2 := s.(pcs := s.pcs[t := FlushPop(b)], finished := s.finished + [f], popDue := true);
    r := s.(backlog := s.backlog[1..], finished := s.finished + [f]);
    assert s1.pcs[t := FlushPop(b)] == s2.pcs && s2.pcs[t := FlushPeek(b)] == s.pcs;
    OneStep(s, t, Go);
    OneStep(s1, t, Outcome(true));
    OneStep(s2, t, Go);
    ExecConcat(s, [(t, Go)], [(t, Outcome(true))]);
    ExecConcat(s, [(t, Go)] + [(t, Outcome(true))], [(t, Go)]);
    steps := [(t, Go)] + [(t, Outcome(true))] + [(t, Go)];
  }

  lemma {:induction false} FlushAll(s: State, t: nat) returns (steps: seq<(nat, Act)>, r: State)
    requires t < |s.pcs| && s.pcs[t].FlushPeek? && !s.popDue
    ensures Exec(s, steps) == Some(r) && r.backlog == [] && r.finished == s.finished + s.backlog
    ensures r.pcs == s.pcs[t := After(s.pcs[t].sender)] && !r.flushActive && r.fates == s.fates
    decreases |s.backlog|
  {
    hide Exec;
    if s.backlog == [] {
      OneStep(s, t, Go);
      steps, r := [(t, Go)], Step(s, t, Go).value;
    } else {
      var xs, m := FlushTurn(s, t);
      var ys;
      ys, r := FlushAll(m, t);
      ExecConcat(s, xs, ys);
      steps := xs + ys;
    }
  }

  // A guest kick on a backlog that nobody flushes can finish all of it, in order, and leaves the flag clear.
  lemma KickFlushes(s: State, t: nat) returns (steps: seq<(nat, Act)>, r: State)
    requires t < |s.pcs| && s.pcs[t] == Idle && !s.flushActive && !s.popDue
    ensures Exec(s, steps) == Some(r) && r.backlog == [] && r.finished == s.finished + s.backlog
    ensures r.pcs == s.pcs && !r.flushActive && r.fates == s.fates
  {
    hide Exec;
    var s1 := s.(pcs := s.pcs[t := FlushEntry(false)]);
    var s2 := s.(pcs := s.pcs[t := FlushPeek(false)], flushActive := true, flusher := Some(t));
    assert s1.pcs[t := FlushPeek(false)] == s2.pcs;
    OneStep(s, t, Kick);
    OneStep(s1, t, Go);
    ExecConcat(s, [(t, Kick)], [(t, Go)]);
    var ys;
    ys, r := FlushAll(s2, t);
    ExecConcat(s, [(t, Kick)] + [(t, Go)], ys);
    steps := [(t, Kick)] + [(t, Go)] + ys;
  }
}
