// Pausing a virtual machine (native/kvm/backend.cc:3727-3763, native/whp/backend.cc:3938-3971 and
// src/kvm.ts:291-323): any number of vCPU loops and one controller share a command word, a state word, a
// counter and a done flag. Every atomic load, store or read-modify-write is one step.
module PauseProtocol {
  import opened Bytes

  datatype Command = Run | Pause | Stop

  datatype Word = Starting | Running | Paused | Stopping | Exited

  // Where a vCPU thread stands: the atomic operation it performs next.
  datatype Pc =
    | Unborn         // the thread starts once the state word says Running
    | Top            // vm_done.load() at the head of the loop
    | Read           // control.command()
    | Arrive         // paused_count.fetch_add(1)
    | StorePaused    // set_state(Paused), by the vCPU whose fetch_add completed the count
    | WaitCommand    // the wait loop's control.command()
    | WaitDone       // the wait loop's vm_done.load()
    | WaitTimeout    // the wait loop's watchdog_timeout.load(), WHP only
    | Leave          // paused_count.fetch_sub(1)
    | RecheckCommand // control.command() == Stop
    | RecheckDone    // vm_done.load()
    | StoreRunning   // set_state(Running)
    | Enter          // about to enter the run call
    | Guest          // inside the run call
    | StoreStopping  // set_state(Stopping)
    | Finish         // finish(): vm_done becomes true
    | Gone

  datatype State = State(
    whp: bool, command: Command, word: Word, count: int, done: bool, timedOut: bool, pcs: seq<Pc>)

  datatype Event =
    | Go(cpu: nat)        // the vCPU's next atomic operation
    | Skip(cpu: nat)      // WHP: a halted vCPU goes round without entering the guest
    | Quit(cpu: nat)      // the run call's exit ends the machine
    | Order(command: Command)
    | Boot | HostStop | TimeOut | Exit

  function Init(whp: bool, cpus: nat): State {
    State(whp, Run, Starting, 0, false, false, seq(cpus, _ => Unborn))
  }

  // Where a vCPU goes from pc, by what its atomic operation reads.
  function Target(s: State, pc: Pc): Pc {
    match pc
    case Unborn => if s.word == Starting then Unborn else Top
    case Top => if s.done then Gone else Read
    case Read => if s.command == Stop then StoreStopping else if s.command == Pause then Arrive else Enter
    case Arrive => if s.count + 1 == |s.pcs| then StorePaused else WaitCommand
    case StorePaused => WaitCommand
    case WaitCommand => if s.command == Pause then WaitDone else Leave
    case WaitDone => if s.done then Leave else if s.whp then WaitTimeout else WaitCommand
    case WaitTimeout => if s.whp && s.timedOut then Leave else WaitCommand
    case Leave => RecheckCommand
    case RecheckCommand => if s.command == Stop then StoreStopping else RecheckDone
    case RecheckDone => if s.done then Enter else StoreRunning
    case StoreRunning => Enter
    case Enter => Guest
    case Guest => Top
    case StoreStopping => Finish
    case Finish => Gone
    case Gone => Gone
  }

  // One atomic operation of a vCPU: what it stores.
  function Next(s: State, i: nat): State
    requires i < |s.pcs|
  {
    var pc := s.pcs[i];
    s.(pcs := s.pcs[i := Target(s, pc)],
       count := if pc == Arrive then s.count + 1 else if pc == Leave then s.count - 1 else s.count,
       word := if pc == StorePaused then Paused else if pc == StoreRunning then Running
               else if pc == StoreStopping then Stopping else s.word,
       done := s.done || pc == Finish)
  }

  function At(s: State, i: nat, pc: Pc): State
    requires i < |s.pcs|
  {
    s.(pcs := s.pcs[i := pc])
  }

  function Step(s: State, e: Event): Option<State> {
    match e
    case Go(i) => if i < |s.pcs| then Some(Next(s, i)) else None
    case Skip(i) => if i < |s.pcs| && s.whp && s.pcs[i] == Enter then Some(At(s, i, Top)) else None
    case Quit(i) => if i < |s.pcs| && s.pcs[i] == Guest then Some(At(s, i, Finish)) else None
    case Order(c) => Some(s.(command := c))
    case Boot => if s.word == Starting then Some(s.(word := Running)) else None
    case HostStop => Some(s.(done := true))
    case TimeOut => Some(s.(timedOut := true))
    case Exit => if forall i :: 0 <= i < |s.pcs| ==> s.pcs[i] == Gone then Some(s.(word := Exited)) else None
  }

  function Exec(s: State, events: seq<Event>): Option<State> {
    if events == [] then Some(s) else
      match Exec(s, events[..|events| - 1])
      case None => None
      case Some(m) => Step(m, events[|events| - 1])
  }

  // ---- The counter ----

  // Between fetch_add and fetch_sub.
  predicate InWindow(pc: Pc) { pc == StorePaused || Waiting(pc) || pc == Leave }

  predicate Waiting(pc: Pc) { pc == WaitCommand || pc == WaitDone || pc == WaitTimeout }

  function Window(pcs: seq<Pc>): (n: nat)
    ensures n <= |pcs|
  {
    if pcs == [] then 0 else
      var last := |pcs| - 1;
      Window(pcs[..last]) + if InWindow(pcs[last]) then 1 else 0
  }

  lemma {:induction false} WindowUpdate(pcs: seq<Pc>, i: nat, pc: Pc)
    requires i < |pcs|
    ensures Window(pcs[i := pc]) == Window(pcs) - (if InWindow(pcs[i]) then 1 else 0) + (if InWindow(pc) then 1 else 0)
  {
    hide InWindow;
    var last := |pcs| - 1;
    if i == last {
      assert pcs[i := pc][..last] == pcs[..last];
    } else {
      assert pcs[i := pc][..last] == pcs[..last][i := pc];
      WindowUpdate(pcs[..last], i, pc);
    }
  }

  lemma {:induction false} WindowNone(pcs: seq<Pc>)
    requires forall i :: 0 <= i < |pcs| ==> !InWindow(pcs[i])
    ensures Window(pcs) == 0
  {
    if pcs != [] { WindowNone(pcs[..|pcs| - 1]); }
  }

  lemma {:induction false} WindowFull(pcs: seq<Pc>)
    requires Window(pcs) == |pcs|
    ensures forall i :: 0 <= i < |pcs| ==> InWindow(pcs[i])
  {
    if pcs != [] {
      var last := |pcs| - 1;
      WindowFull(pcs[..last]);
      assert forall i :: 0 <= i < last ==> pcs[..last][i] == pcs[i];
    }
  }

  predicate Counted(s: State) { s.count == Window(s.pcs) }

  // fetch_add and fetch_sub are the only way in and out of the window.
  lemma TargetEffect(s: State, pc: Pc)
    ensures InWindow(Target(s, pc)) == (pc == Arrive || (InWindow(pc) && pc != Leave))
  {
  }

  lemma StepCounted(s: State, e: Event)
    requires Counted(s) && Step(s, e).Some?
    ensures Counted(Step(s, e).value) && |Step(s, e).value.pcs| == |s.pcs|
  {
    hide Target, Window;
    var t := Step(s, e).value;
    match e {
      case Go(i) => TargetEffect(s, s.pcs[i]); WindowUpdate(s.pcs, i, t.pcs[i]);
      case Skip(i) => WindowUpdate(s.pcs, i, Top);
      case Quit(i) => WindowUpdate(s.pcs, i, Finish);
      case _ =>
    }
  }

  lemma InitCounted(whp: bool, cpus: nat)
    ensures Counted(Init(whp, cpus))
  {
    WindowNone(Init(whp, cpus).pcs);
  }

  // In every reachable state the counter is the number of vCPUs between fetch_add and fetch_sub.
  lemma {:induction false} CountExact(whp: bool, cpus: nat, events: seq<Event>)
    ensures var r := Exec(Init(whp, cpus), events); r.Some? ==> Counted(r.value) && |r.value.pcs| == cpus
  {
    hide Step, Counted;
    if events == [] {
      InitCounted(whp, cpus);
    } else {
      CountExact(whp, cpus, events[..|events| - 1]);
      var m := Exec(Init(whp, cpus), events[..|events| - 1]);
      if m.Some? && Step(m.value, events[|events| - 1]).Some? { StepCounted(m.value, events[|events| - 1]); }
    }
  }

  // ---- A pause that is held ----

  // The controller asks for nothing but Pause during the run.
  predicate Kept(events: seq<Event>) { forall k :: 0 <= k < |events| && events[k].Order? ==> events[k].command == Pause }

  // Nothing else has ended the wait loops.
  predicate Undisturbed(s: State) { !s.done && !(s.whp && s.timedOut) }

  // Out of the wait loop and on the way to the run call, or in it.
  predicate Loose(pc: Pc) {
    pc == Leave || pc == RecheckCommand || pc == RecheckDone || pc == StoreRunning || pc == Enter || pc == Guest
  }

  ghost predicate Quiet(s: State) { forall i :: 0 <= i < |s.pcs| ==> !Loose(s.pcs[i]) }

  ghost predicate Parked(s: State) { s.word == Paused && forall i :: 0 <= i < |s.pcs| ==> Waiting(s.pcs[i]) }

  // Two vCPUs that cannot spoil a pause: nobody is loose while another is about to store Paused, and
  // nobody is still counted after leaving the wait loop while another may complete the count.
  predicate Compatible(pc: Pc, other: Pc) {
    && (Loose(pc) ==> other != StorePaused)
    && (pc == Leave ==> Waiting(other))
  }

  ghost predicate PauseSafe(s: State) {
    forall a, b :: 0 <= a < |s.pcs| && 0 <= b < |s.pcs| && a != b ==> Compatible(s.pcs[a], s.pcs[b])
  }

  // Nobody has left the wait loop, and whoever is about to store Paused is the only one not waiting.
  predicate Orderly(pc: Pc, other: Pc) { pc != Leave && other != Leave && (pc == StorePaused ==> Waiting(other)) }

  ghost predicate Parking(s: State) {
    && (forall a :: 0 <= a < |s.pcs| ==> s.pcs[a] != Leave)
    && forall a, b :: 0 <= a < |s.pcs| && 0 <= b < |s.pcs| && a != b ==> Orderly(s.pcs[a], s.pcs[b])
  }

  lemma OthersInWindow(s: State, i: nat)
    requires Counted(s) && i < |s.pcs| && s.pcs[i] == Arrive && s.count + 1 == |s.pcs|
    ensures forall j :: 0 <= j < |s.pcs| && j != i ==> InWindow(s.pcs[j])
  {
    WindowUpdate(s.pcs, i, StorePaused);
    WindowFull(s.pcs[i := StorePaused]);
    assert forall j :: 0 <= j < |s.pcs| && j != i ==> s.pcs[i := StorePaused][j] == s.pcs[j];
  }

  // What one vCPU's own step does to its relation with any other.
  lemma OrderlyMove(s: State, pc: Pc, other: Pc)
    requires Orderly(pc, other) && Orderly(other, pc) && s.command == Pause && Undisturbed(s)
    requires pc == Arrive && s.count + 1 == |s.pcs| ==> InWindow(other)
    ensures Orderly(Target(s, pc), other) && Orderly(other, Target(s, pc)) && Target(s, pc) != Leave
  {
  }

  lemma StepParking(s: State, e: Event)
    requires Counted(s) && Parking(s) && s.command == Pause && Step(s, e).Some? && Undisturbed(Step(s, e).value)
    ensures Parking(Step(s, e).value)
  {
    hide Window, Target;
    var t := Step(s, e).value;
    if e.Go? {
      ParkingGoes(s, e.cpu);
    } else {
      forall a, b | 0 <= a < |t.pcs| && 0 <= b < |t.pcs| && a != b ensures Orderly(t.pcs[a], t.pcs[b]) {
        assert Orderly(s.pcs[a], s.pcs[b]);
      }
    }
  }

  lemma ParkingGoes(s: State, i: nat)
    requires Counted(s) && Parking(s) && s.command == Pause && Undisturbed(s) && i < |s.pcs|
    ensures Parking(Next(s, i))
  {
    hide Window, Target, Orderly, Undisturbed;
    if s.pcs[i] == Arrive && s.count + 1 == |s.pcs| { OthersInWindow(s, i); }
    var t := Next(s, i);
    assert t.pcs[i] != Leave by { LeavesNot(s, s.pcs[i]); }
    forall a, b | 0 <= a < |t.pcs| && 0 <= b < |t.pcs| && a != b ensures Orderly(t.pcs[a], t.pcs[b]) {
      assert Orderly(s.pcs[a], s.pcs[b]) && Orderly(s.pcs[b], s.pcs[a]);
      if a == i { OrderlyMove(s, s.pcs[i], s.pcs[b]); } else if b == i { OrderlyMove(s, s.pcs[i], s.pcs[a]); }
    }
  }

  lemma LeavesNot(s: State, pc: Pc)
    requires s.command == Pause && Undisturbed(s)
    ensures Target(s, pc) != Leave
  {
  }

  lemma SafeMove(s: State, pc: Pc, other: Pc)
    requires Compatible(pc, other) && Compatible(other, pc) && s.command == Pause && Undisturbed(s)
    requires pc == Arrive && s.count + 1 == |s.pcs| ==> InWindow(other)
    ensures Compatible(Target(s, pc), other) && Compatible(other, Target(s, pc))
  {
  }

  lemma StepSafe(s: State, e: Event)
    requires Counted(s) && PauseSafe(s) && s.command == Pause && Step(s, e).Some? && Undisturbed(Step(s, e).value)
    ensures PauseSafe(Step(s, e).value)
  {
    hide Window, Target;
    var t := Step(s, e).value;
    if e.Go? {
      SafeGoes(s, e.cpu);
    } else {
      forall a, b | 0 <= a < |t.pcs| && 0 <= b < |t.pcs| && a != b ensures Compatible(t.pcs[a], t.pcs[b]) {
        assert Compatible(s.pcs[a], s.pcs[b]) && Compatible(s.pcs[b], s.pcs[a]);
      }
    }
  }

  lemma SafeGoes(s: State, i: nat)
    requires Counted(s) && PauseSafe(s) && s.command == Pause && Undisturbed(s) && i < |s.pcs|
    ensures PauseSafe(Next(s, i))
  {
    hide Window, Target, Compatible, Undisturbed;
    if s.pcs[i] == Arrive && s.count + 1 == |s.pcs| { OthersInWindow(s, i); }
    var t := Next(s, i);
    forall a, b | 0 <= a < |t.pcs| && 0 <= b < |t.pcs| && a != b ensures Compatible(t.pcs[a], t.pcs[b]) {
      assert Compatible(s.pcs[a], s.pcs[b]) && Compatible(s.pcs[b], s.pcs[a]);
      if a == i { SafeMove(s, s.pcs[i], s.pcs[b]); } else if b == i { SafeMove(s, s.pcs[i], s.pcs[a]); }
    }
  }

  lemma StepParked(s: State, e: Event)
    requires Parked(s) && s.pcs != [] && s.command == Pause && Step(s, e).Some? && Undisturbed(Step(s, e).value)
    ensures Parked(Step(s, e).value)
  {
    hide Window;
    assert Waiting(s.pcs[0]);
  }

  lemma QuietMove(s: State, pc: Pc)
    requires !Loose(pc) && s.word != Starting && s.command == Pause && Undisturbed(s)
    ensures !Loose(Target(s, pc)) && pc != StoreRunning
  {
  }

  lemma StepQuiet(s: State, e: Event)
    requires Still(s) && s.command == Pause && Step(s, e).Some? && Undisturbed(Step(s, e).value)
    ensures Still(Step(s, e).value)
  {
    hide Window, Target;
    if e.Go? { QuietMove(s, s.pcs[e.cpu]); }
  }

  // Nobody loose, and the machine is not starting or running by its state word.
  ghost predicate Still(s: State) { Quiet(s) && s.word != Starting && s.word != Running }

  // What one step under a held Pause keeps.
  lemma KeptStep(s: State, e: Event)
    requires Counted(s) && s.command == Pause && (e.Order? ==> e.command == Pause)
    requires Step(s, e).Some? && Undisturbed(Step(s, e).value)
    ensures var t := Step(s, e).value;
      && Undisturbed(s) && Counted(t) && t.command == Pause && |t.pcs| == |s.pcs|
      && (PauseSafe(s) ==> PauseSafe(t)) && (Parking(s) ==> Parking(t))
      && (Parked(s) && s.pcs != [] ==> Parked(t)) && (Still(s) ==> Still(t))
  {
    hide Counted, PauseSafe, Parking, Parked, Still, Target;
    StepCounted(s, e);
    if PauseSafe(s) { StepSafe(s, e); }
    if Parking(s) { StepParking(s, e); }
    if Parked(s) && s.pcs != [] { StepParked(s, e); }
    if Still(s) { StepQuiet(s, e); }
  }

  // What a run under a held Pause keeps.
  lemma {:induction false} KeptRun(s: State, events: seq<Event>)
    requires Counted(s) && s.command == Pause && Kept(events)
    requires Exec(s, events).Some? && Undisturbed(Exec(s, events).value)
    ensures var t := Exec(s, events).value;
      && Undisturbed(s) && Counted(t) && t.command == Pause && |t.pcs| == |s.pcs|
      && (PauseSafe(s) ==> PauseSafe(t)) && (Parking(s) ==> Parking(t))
      && (Parked(s) && s.pcs != [] ==> Parked(t)) && (Still(s) ==> Still(t))
  {
    if events != [] {
      hide Counted, PauseSafe, Parking, Parked, Still, Step, Undisturbed;
      var e := events[|events| - 1];
      var m := Exec(s, events[..|events| - 1]).value;
      Undisturbing(m, [e]) by { assert [e][..0] == []; }
      KeptRun(s, events[..|events| - 1]);
      KeptStep(m, e);
    }
  }

  // Pause is held from a state with nobody between fetch_add and fetch_sub. Once some vCPU has stored
  // Paused, every vCPU stays in the wait loop and the state word stays Paused.
  lemma PausedMeansParked(s: State, before: seq<Event>, i: nat, after: seq<Event>, t: State)
    requires Counted(s) && s.command == Pause && (forall j :: 0 <= j < |s.pcs| ==> !InWindow(s.pcs[j]))
    requires Kept(before) && Kept(after) && Exec(s, before).Some?
    requires var m := Exec(s, before).value; i < |m.pcs| && m.pcs[i] == StorePaused && Exec(Next(m, i), after) == Some(t)
    requires Undisturbed(t)
    ensures Parked(t)
  {
    var m := Exec(s, before).value;
    var n := Next(m, i);
    hide Exec, Counted, Parking, Parked, Quiet, PauseSafe, Target, Window;
    Undisturbing(n, after);
    NobodyInWindow(s);
    KeptRun(s, before);
    StepCounted(m, Go(i));
    ParkedAfterStore(m, i);
    KeptRun(n, after);
  }

  lemma NobodyInWindow(s: State)
    requires forall j :: 0 <= j < |s.pcs| ==> !InWindow(s.pcs[j])
    ensures Parking(s)
  {
  }

  lemma ParkedAfterStore(s: State, i: nat)
    requires Parking(s) && i < |s.pcs| && s.pcs[i] == StorePaused
    ensures Parked(Next(s, i)) && Next(s, i).pcs != []
  {
    assert forall b :: 0 <= b < |s.pcs| && b != i ==> Orderly(s.pcs[i], s.pcs[b]);
  }

  lemma QuietAfterStore(s: State, i: nat)
    requires PauseSafe(s) && i < |s.pcs| && s.pcs[i] == StorePaused
    ensures Still(Next(s, i))
  {
    assert forall b :: 0 <= b < |s.pcs| && b != i ==> Compatible(s.pcs[b], s.pcs[i]);
  }

  lemma {:induction false} Undisturbing(s: State, events: seq<Event>)
    requires Exec(s, events).Some? && Undisturbed(Exec(s, events).value)
    ensures Undisturbed(s)
  {
    if events != [] { Undisturbing(s, events[..|events| - 1]); }
  }

  // From any PauseSafe state, once Paused is stored nobody is in the run call or on the way to it, now or
  // later, and no late Running overwrites the state word.
  lemma PausedMeansQuiet(s: State, before: seq<Event>, i: nat, after: seq<Event>, t: State)
    requires Counted(s) && s.command == Pause && PauseSafe(s)
    requires Kept(before) && Kept(after) && Exec(s, before).Some?
    requires var m := Exec(s, before).value; i < |m.pcs| && m.pcs[i] == StorePaused && Exec(Next(m, i), after) == Some(t)
    requires Undisturbed(t)
    ensures Quiet(t) && t.word != Running
  {
    var m := Exec(s, before).value;
    var n := Next(m, i);
    hide Exec, Counted, Parking, Parked, Quiet, PauseSafe, Target, Window;
    Undisturbing(n, after);
    KeptRun(s, before);
    StepCounted(m, Go(i));
    QuietAfterStore(m, i);
    KeptRun(n, after);
  }

  // ---- Exactly when a held pause can go wrong ----

  // Every vCPU thread has started and none is on its way out.
  ghost predicate Live(s: State) { forall i :: 0 <= i < |s.pcs| ==> Busy(s.pcs[i]) }

  predicate Busy(pc: Pc) { pc != Unborn && pc != StoreStopping && pc != Finish && pc != Gone }

  // Some run under the held pause ends with one vCPU about to store Paused and another in the run call.
  ghost predicate Breakable(s: State) { exists events :: Kept(events) && Broken(Exec(s, events)) }

  ghost predicate Broken(r: Option<State>) {
    && r.Some? && Undisturbed(r.value)
    && exists a, b :: 0 <= a < |r.value.pcs| && 0 <= b < |r.value.pcs|
                      && r.value.pcs[a] == Guest && r.value.pcs[b] == StorePaused
  }

  lemma {:induction false} ExecConcat(s: State, xs: seq<Event>, ys: seq<Event>)
    requires Exec(s, xs).Some?
    ensures Exec(s, xs + ys) == Exec(Exec(s, xs).value, ys)
  {
    if ys == [] {
      assert xs + ys == xs;
    } else {
      assert (xs + ys)[..|xs + ys| - 1] == xs + ys[..|ys| - 1];
      ExecConcat(s, xs, ys[..|ys| - 1]);
    }
  }

  // How many of its own steps a vCPU is from the fetch_add while Pause is held.
  function Distance(pc: Pc): nat {
    match pc
    case Leave => 8 case RecheckCommand => 7 case RecheckDone => 6 case StoreRunning => 5
    case Enter => 4 case Guest => 3 case Top => 2 case Read => 1 case _ => 0
  }

  // A vCPU outside the wait loop can run on its own to the guest, and from there to the fetch_add.
  lemma {:induction false} Drive(s: State, i: nat, goal: Pc) returns (events: seq<Event>, t: State)
    requires s.command == Pause && Undisturbed(s) && i < |s.pcs| && Busy(s.pcs[i])
    requires s.pcs[i] == Leave || !InWindow(s.pcs[i])
    requires (goal == Guest || goal == Arrive) && Distance(goal) <= Distance(s.pcs[i])
    ensures Kept(events) && Exec(s, events) == Some(t)
    ensures t == s.(pcs := s.pcs[i := goal], word := t.word, count := t.count)
    ensures s.pcs[i] != Leave ==> t.count == s.count
    decreases Distance(s.pcs[i])
  {
    if s.pcs[i] == goal {
      events, t := [], s;
    } else {
      var n := Next(s, i);
      var rest;
      rest, t := Drive(n, i, goal);
      events := [Go(i)] + rest;
      assert Exec(s, [Go(i)]) == Some(n) by { assert [Go(i)][..0] == []; }
      ExecConcat(s, [Go(i)], rest);
    }
  }

  lemma Arrival(s: State, i: nat) returns (events: seq<Event>, t: State)
    requires Counted(s) && s.command == Pause && Undisturbed(s)
    requires i < |s.pcs| && Busy(s.pcs[i]) && !InWindow(s.pcs[i])
    ensures Kept(events) && Exec(s, events) == Some(t) && Counted(t)
    ensures t == s.(pcs := s.pcs[i := if s.count + 1 == |s.pcs| then StorePaused else WaitCommand],
                    word := t.word, count := s.count + 1)
  {
    hide Exec, Window, PauseSafe, Parking, Parked, Quiet, Counted;
    var m;
    events, m := Drive(s, i, Arrive);
    KeptRun(s, events);
    StepCounted(m, Go(i));
    t := Next(m, i);
    ExecNext(s, events, Go(i));
    events := events + [Go(i)];
  }

  lemma ExecNext(s: State, events: seq<Event>, e: Event)
    requires Exec(s, events).Some?
    ensures Exec(s, events + [e]) == Step(Exec(s, events).value, e)
  {
    assert (events + [e])[..|events|] == events;
  }

  // Everyone but vCPU b is brought between fetch_add and fetch_sub, without moving who is there already.
  lemma {:induction false} Gather(s: State, b: nat, k: nat) returns (events: seq<Event>, t: State)
    requires Counted(s) && s.command == Pause && Undisturbed(s) && Live(s)
    requires b < |s.pcs| && k <= |s.pcs| && !InWindow(s.pcs[b])
    requires forall i :: 0 <= i < k && i != b ==> InWindow(s.pcs[i])
    ensures Kept(events) && Exec(s, events) == Some(t)
    ensures t.command == Pause && Undisturbed(t) && Live(t) && Counted(t) && |t.pcs| == |s.pcs|
    ensures t.pcs[b] == s.pcs[b]
    ensures forall i :: 0 <= i < |s.pcs| && i != b ==> InWindow(t.pcs[i])
    ensures forall i :: 0 <= i < |s.pcs| && InWindow(s.pcs[i]) ==> t.pcs[i] == s.pcs[i]
    decreases |s.pcs| - k
  {
    if k == |s.pcs| {
      events, t := [], s;
    } else if k == b || InWindow(s.pcs[k]) {
      events, t := Gather(s, b, k + 1);
    } else {
      var first, n := Arrival(s, k);
      var rest;
      rest, t := Gather(n, b, k + 1);
      events := first + rest;
      ExecConcat(s, first, rest);
    }
  }

  lemma OnlyOneOut(s: State, b: nat)
    requires Counted(s) && b < |s.pcs| && !InWindow(s.pcs[b])
    requires forall i :: 0 <= i < |s.pcs| && i != b ==> InWindow(s.pcs[i])
    ensures s.count + 1 == |s.pcs|
  {
    WindowUpdate(s.pcs, b, Leave);
    WindowAll(s.pcs[b := Leave]);
  }

  lemma {:induction false} WindowAll(pcs: seq<Pc>)
    requires forall i :: 0 <= i < |pcs| ==> InWindow(pcs[i])
    ensures Window(pcs) == |pcs|
  {
    if pcs != [] { WindowAll(pcs[..|pcs| - 1]); }
  }

  // Vcpu a has left the wait loop but is still counted while b is outside: the others and then b complete
  // the count, and a goes on into the guest before b stores Paused.
  lemma LeaverBreaks(s: State, a: nat, b: nat)
    requires Counted(s) && s.command == Pause && Undisturbed(s) && Live(s)
    requires a < |s.pcs| && b < |s.pcs| && a != b && s.pcs[a] == Leave && !InWindow(s.pcs[b])
    ensures Breakable(s)
  {
    hide Window, Target, Next, Exec, Counted;
    var xs, m := Gather(s, b, 0);
    OnlyOneOut(m, b);
    var ys, n := Arrival(m, b);
    var zs, t := Drive(n, a, Guest);
    ExecConcat(s, xs, ys);
    ExecConcat(s, xs + ys, zs);
    assert t.pcs[a] == Guest && t.pcs[b] == StorePaused;
    assert Kept(xs + ys + zs) && Broken(Exec(s, xs + ys + zs));
  }

  lemma UnsafeBreaks(s: State, a: nat, b: nat)
    requires Counted(s) && s.command == Pause && Undisturbed(s) && Live(s)
    requires a < |s.pcs| && b < |s.pcs| && a != b && !Compatible(s.pcs[a], s.pcs[b])
    ensures Breakable(s)
  {
    hide Window;
    if s.pcs[b] == StorePaused {
      var zs, t := Drive(s, a, Guest);
      assert t.pcs[a] == Guest && t.pcs[b] == StorePaused;
      assert Kept(zs) && Broken(Exec(s, zs));
    } else if s.pcs[b] == Leave {
      var n := Next(s, b);
      StepCounted(s, Go(b));
      LeaverBreaks(n, a, b);
      var ys :| Kept(ys) && Broken(Exec(n, ys));
      assert Exec(s, [Go(b)]) == Some(n) by { assert [Go(b)][..0] == []; }
      ExecConcat(s, [Go(b)], ys);
      assert Kept([Go(b)] + ys);
    } else {
      LeaverBreaks(s, a, b);
    }
  }

  lemma BreakableUnsafe(s: State)
    requires Counted(s) && s.command == Pause && Breakable(s)
    ensures !PauseSafe(s)
  {
    hide Window, Target, Next;
    var events :| Kept(events) && Broken(Exec(s, events));
    var t := Exec(s, events).value;
    var a, b :| 0 <= a < |t.pcs| && 0 <= b < |t.pcs| && t.pcs[a] == Guest && t.pcs[b] == StorePaused;
    assert !Compatible(t.pcs[a], t.pcs[b]);
    assert !PauseSafe(t);
    KeptRun(s, events);
  }

  // A held pause is safe exactly when nobody is still counted after leaving the wait loop while another
  // is not waiting, and nobody is loose while another is about to store Paused.
  lemma SafeIff(s: State)
    requires Counted(s) && s.command == Pause && Undisturbed(s) && Live(s)
    ensures PauseSafe(s) <==> !Breakable(s)
  {
    hide Window, Target, Next;
    if !PauseSafe(s) {
      var a, b :| 0 <= a < |s.pcs| && 0 <= b < |s.pcs| && a != b && !Compatible(s.pcs[a], s.pcs[b]);
      UnsafeBreaks(s, a, b);
    } else if Breakable(s) {
      BreakableUnsafe(s);
    }
  }

  // A held pause can always be completed: if vCPU b is not counted yet, the others and then b can arrive, and b
  // stores Paused; from a state in which nobody has left the wait loop everybody is then parked.
  lemma PauseCompletes(s: State, b: nat) returns (events: seq<Event>, t: State)
    requires Counted(s) && s.command == Pause && Undisturbed(s) && Live(s) && b < |s.pcs| && !InWindow(s.pcs[b])
    ensures Kept(events) && Exec(s, events) == Some(t) && Undisturbed(t) && t.word == Paused
    ensures Parking(s) ==> Parked(t)
  {
    hide Window, Target, Next, Exec, Counted, Parking, Parked, PauseSafe, Still;
    var xs, m := Gather(s, b, 0);
    OnlyOneOut(m, b);
    var ys, n := Arrival(m, b);
    ExecConcat(s, xs, ys);
    ExecNext(s, xs + ys, Go(b));
    KeptRun(s, xs + ys);
    StoreEffect(n, b);
    if Parking(n) { ParkedAfterStore(n, b); }
    events, t := xs + ys + [Go(b)], Next(n, b);
  }

  lemma StoreEffect(s: State, b: nat)
    requires b < |s.pcs| && s.pcs[b] == StorePaused
    ensures Step(s, Go(b)) == Some(Next(s, b)) && Next(s, b).word == Paused
    ensures Undisturbed(s) ==> Undisturbed(Next(s, b))
  {
  }

  // How many of its own steps a waiting vCPU is from the guest once the command is no longer Pause.
  function Way(pc: Pc): nat {
    match pc
    case WaitDone => 8 case WaitTimeout => 7 case WaitCommand => 6 case Leave => 5 case RecheckCommand => 4
    case RecheckDone => 3 case StoreRunning => 2 case Enter => 1 case _ => 0
  }

  // And a pause can always be left: after resume() each waiting vCPU can go on into the guest, whatever the
  // others do, and stores Running on its way.
  lemma {:induction false} Resumes(s: State, i: nat) returns (events: seq<Event>, t: State)
    requires s.command == Run && Undisturbed(s) && i < |s.pcs| && (Way(s.pcs[i]) > 1 || (s.pcs[i] == Enter && s.word == Running))
    ensures Exec(s, events) == Some(t) && t.pcs == s.pcs[i := Guest] && t.word == Running && Undisturbed(t)
    decreases Way(s.pcs[i])
  {
    hide Exec;
    var n := Next(s, i);
    OneStep(s, Go(i));
    if s.pcs[i] == Enter {
      events, t := [Go(i)], n;
    } else {
      var rest;
      rest, t := Resumes(n, i);
      ExecConcat(s, [Go(i)], rest);
      events := [Go(i)] + rest;
    }
  }

  lemma OneStep(s: State, e: Event)
    ensures Exec(s, [e]) == Step(s, e)
  {
    assert [e][..0] == [];
  }

  // ---- One controller whose pause() and resume() calls are awaited ----

  datatype Ctl = Ready | Holding | PauseCall | PauseWait | ResumeCall | ResumeWait | StopCalled

  datatype Machine = Machine(vm: State, ctl: Ctl)

  datatype Move = Vm(event: Event) | CallPause | CallResume | CallStop | Proceed

  // Between two calls the controller is Holding when its last call was a pause() that saw Paused.
  function Advance(m: Machine, move: Move): Option<Machine> {
    var idle := m.ctl == Ready || m.ctl == Holding;
    match move
    case Vm(e) =>
      if e.Order? then None else
        var r := Step(m.vm, e);
        if r.None? then None else Some(m.(vm := r.value))
    case CallPause => if idle then Some(if m.vm.word == Exited then m else m.(ctl := PauseCall)) else None
    case CallResume => if idle then Some(if m.vm.word == Exited then m else m.(ctl := ResumeCall)) else None
    case CallStop => if idle then Some(Machine(m.vm.(command := Stop), StopCalled)) else None
    case Proceed =>
      match m.ctl
      case PauseCall => Some(Machine(m.vm.(command := Pause), PauseWait))
      case PauseWait => Some(m.(ctl := if m.vm.word == Paused then Holding else if m.vm.word == Exited then Ready
          else PauseWait))
      case ResumeCall => Some(Machine(m.vm.(command := Run), ResumeWait))
      case ResumeWait => Some(m.(ctl := if m.vm.word == Running || m.vm.word == Exited then Ready else ResumeWait))
      case _ => None
  }

  function Play(m: Machine, moves: seq<Move>): Option<Machine> {
    if moves == [] then Some(m) else
      match Play(m, moves[..|moves| - 1])
      case None => None
      case Some(n) => Advance(n, moves[|moves| - 1])
  }

  // ---- One vCPU ----

  predicate Outside(pc: Pc) {
    pc == Unborn || pc == Top || pc == Read || pc == Enter || pc == Guest || pc == Finish
  }

  // The vCPU runs, and nothing of an earlier pause is left.
  predicate Free(vm: State) requires |vm.pcs| == 1 {
    vm.command == Run && (vm.word == Starting || vm.word == Running) && Outside(vm.pcs[0])
  }

  predicate Stuck(vm: State) requires |vm.pcs| == 1 {
    vm.command == Pause && vm.word == Paused && Waiting(vm.pcs[0])
  }

  predicate Pausing(vm: State) requires |vm.pcs| == 1 {
    && vm.command == Pause && (vm.word == Starting || vm.word == Running)
    && (Outside(vm.pcs[0]) || vm.pcs[0] == Arrive || vm.pcs[0] == StorePaused)
  }

  predicate Resuming(vm: State) requires |vm.pcs| == 1 {
    && vm.command == Run && vm.word == Paused
    && var pc := vm.pcs[0];
       Waiting(pc) || pc == Leave || pc == RecheckCommand || pc == RecheckDone || pc == StoreRunning
  }

  predicate Matches(m: Machine) requires |m.vm.pcs| == 1 {
    match m.ctl
    case Ready => Free(m.vm)
    case Holding => Stuck(m.vm)
    case PauseCall => Free(m.vm) || Stuck(m.vm)
    case ResumeCall => Free(m.vm) || Stuck(m.vm)
    case PauseWait => Pausing(m.vm) || Stuck(m.vm)
    case ResumeWait => Free(m.vm) || Resuming(m.vm)
    case StopCalled => true
  }

  predicate Single(m: Machine) {
    && |m.vm.pcs| == 1 && m.vm.count == (if InWindow(m.vm.pcs[0]) then 1 else 0)
    && (m.vm.pcs[0] == Gone ==> m.vm.done)
    && (Undisturbed(m.vm) ==> Matches(m))
  }

  lemma AdvanceSingle(m: Machine, move: Move)
    requires Single(m) && Advance(m, move).Some?
    ensures Single(Advance(m, move).value)
  {
    hide Target, Step;
    if move.Vm? { VmSingle(m, move.event); }
  }

  lemma VmSingle(m: Machine, e: Event)
    requires Single(m) && !e.Order? && Step(m.vm, e).Some?
    ensures Single(m.(vm := Step(m.vm, e).value))
  {
    hide Target;
    if e.Go? { GoSingle(m); }
  }

  lemma GoSingle(m: Machine)
    requires Single(m)
    ensures Single(m.(vm := Next(m.vm, 0)))
  {
    hide Target, Free, Stuck, Pausing, Resuming;
    var vm := m.vm;
    if Undisturbed(Next(vm, 0)) {
      if Free(vm) { FreeGoes(vm); }
      if Stuck(vm) { StuckStays(vm); }
      if Pausing(vm) { PausingGoes(vm); }
      if Resuming(vm) { ResumingGoes(vm); }
    }
    TargetEffect(vm, vm.pcs[0]);
    if vm.pcs[0] != Gone && Target(vm, vm.pcs[0]) == Gone { OutOnlyWhenDone(vm); }
  }

  lemma OutOnlyWhenDone(vm: State)
    requires |vm.pcs| == 1 && vm.pcs[0] != Gone && Target(vm, vm.pcs[0]) == Gone
    ensures Next(vm, 0).done
  {
  }

  lemma FreeGoes(vm: State)
    requires |vm.pcs| == 1 && Free(vm) && Undisturbed(Next(vm, 0))
    ensures Free(Next(vm, 0))
  {
  }

  lemma StuckStays(vm: State)
    requires |vm.pcs| == 1 && Stuck(vm) && Undisturbed(Next(vm, 0))
    ensures Stuck(Next(vm, 0))
  {
  }

  lemma PausingGoes(vm: State)
    requires |vm.pcs| == 1 && Pausing(vm) && Undisturbed(Next(vm, 0)) && (vm.pcs[0] == Arrive ==> vm.count == 0)
    ensures Pausing(Next(vm, 0)) || Stuck(Next(vm, 0))
  {
  }

  lemma ResumingGoes(vm: State)
    requires |vm.pcs| == 1 && Resuming(vm) && Undisturbed(Next(vm, 0))
    ensures Resuming(Next(vm, 0)) || Free(Next(vm, 0))
  {
  }

  // With one vCPU and awaited calls, whenever the last call was a pause() that saw Paused the vCPU is in
  // the wait loop and the state word says so, over every sequence of pause() and resume() calls.
  lemma {:induction false} AwaitedPause(whp: bool, moves: seq<Move>)
    ensures var r := Play(Machine(Init(whp, 1), Ready), moves);
            r.Some? ==> Single(r.value) && (r.value.ctl == Holding && Undisturbed(r.value.vm) ==> Parked(r.value.vm))
  {
    hide Single, Advance, Init, Parked;
    FirstSingle(whp);
    if moves != [] {
      AwaitedPause(whp, moves[..|moves| - 1]);
      var m := Play(Machine(Init(whp, 1), Ready), moves[..|moves| - 1]);
      if m.Some? && Advance(m.value, moves[|moves| - 1]).Some? { AdvanceSingle(m.value, moves[|moves| - 1]); }
    }
    var r := Play(Machine(Init(whp, 1), Ready), moves);
    if r.Some? { SingleParks(r.value); }
  }

  lemma FirstSingle(whp: bool)
    ensures Single(Machine(Init(whp, 1), Ready))
  {
  }

  lemma SingleParks(m: Machine)
    requires Single(m)
    ensures m.ctl == Holding && Undisturbed(m.vm) ==> Parked(m.vm)
  {
  }

  // ---- No vCPU ----

  // Nobody is there to store Paused, so no pause() ever returns with it.
  lemma {:induction false} NoCpu(whp: bool, moves: seq<Move>)
    ensures var r := Play(Machine(Init(whp, 0), Ready), moves);
            r.Some? ==> r.value.vm.pcs == [] && r.value.vm.word != Paused && r.value.ctl != Holding
  {
    if moves != [] {
      hide Advance;
      NoCpu(whp, moves[..|moves| - 1]);
      var m := Play(Machine(Init(whp, 0), Ready), moves[..|moves| - 1]);
      if m.Some? && Advance(m.value, moves[|moves| - 1]).Some? { StillNoCpu(m.value, moves[|moves| - 1]); }
    }
  }

  lemma StillNoCpu(m: Machine, move: Move)
    requires m.vm.pcs == [] && m.vm.word != Paused && m.ctl != Holding && Advance(m, move).Some?
    ensures var n := Advance(m, move).value; n.vm.pcs == [] && n.vm.word != Paused && n.ctl != Holding
  {
  }

  // ---- Several vCPUs ----

  // A state that some run of awaited calls leads to.
  ghost predicate Reached(whp: bool, n: nat, m: Machine) {
    exists moves :: Play(Machine(Init(whp, n), Ready), moves) == Some(m)
  }

  lemma Then(whp: bool, n: nat, m: Machine, move: Move, next: Machine)
    requires Reached(whp, n, m) && Advance(m, move) == Some(next)
    ensures Reached(whp, n, next)
  {
    var moves :| Play(Machine(Init(whp, n), Ready), moves) == Some(m);
    assert (moves + [move])[..|moves|] == moves;
    assert Play(Machine(Init(whp, n), Ready), moves + [move]) == Some(next);
  }

  // vCPU i performs its next operation.
  lemma Goes(whp: bool, n: nat, m: Machine, i: nat)
    requires Reached(whp, n, m) && i < |m.vm.pcs|
    ensures Reached(whp, n, m.(vm := Next(m.vm, i)))
  {
    hide Next;
    Then(whp, n, m, Vm(Go(i)), m.(vm := Next(m.vm, i)));
  }

  // The first pause: the vCPUs before k wait, the others have not started.
  function Row(n: nat, k: nat): (pcs: seq<Pc>)
    ensures |pcs| == n && forall i :: 0 <= i < n ==> pcs[i] == if i < k then WaitCommand else Unborn
  {
    seq(n, i => if i < k then WaitCommand else Unborn)
  }

  function Joining(whp: bool, n: nat, k: nat, pc: Pc): Machine
    requires k < n
  {
    Machine(State(whp, Pause, Running, k, false, false, Row(n, k)[k := pc]), PauseWait)
  }

  lemma Joins(whp: bool, n: nat, k: nat)
    requires k < n && Reached(whp, n, Joining(whp, n, k, Unborn))
    ensures Reached(whp, n, Joining(whp, n, k, Arrive))
  {
    hide Reached, Row;
    Goes(whp, n, Joining(whp, n, k, Unborn), k);
    assert Joining(whp, n, k, Unborn).(vm := Next(Joining(whp, n, k, Unborn).vm, k)) == Joining(whp, n, k, Top);
    Goes(whp, n, Joining(whp, n, k, Top), k);
    assert Joining(whp, n, k, Top).(vm := Next(Joining(whp, n, k, Top).vm, k)) == Joining(whp, n, k, Read);
    Goes(whp, n, Joining(whp, n, k, Read), k);
    assert Joining(whp, n, k, Read).(vm := Next(Joining(whp, n, k, Read).vm, k)) == Joining(whp, n, k, Arrive);
  }

  lemma Fresh(whp: bool, n: nat)
    requires n > 0
    ensures Reached(whp, n, Joining(whp, n, 0, Unborn))
  {
    var m := Machine(Init(whp, n), Ready);
    assert Play(m, []) == Some(m);
    var v := State(whp, Run, Running, 0, false, false, m.vm.pcs);
    Then(whp, n, m, Vm(Boot), Machine(v, Ready));
    Then(whp, n, Machine(v, Ready), CallPause, Machine(v, PauseCall));
    Then(whp, n, Machine(v, PauseCall), Proceed, Machine(v.(command := Pause), PauseWait));
    assert m.vm.pcs == Row(n, 0)[0 := Unborn];
  }

  // The vCPUs wait one after the other, up to the last.
  lemma {:induction false} Joined(whp: bool, n: nat, k: nat)
    requires k < n
    ensures Reached(whp, n, Joining(whp, n, k, Unborn))
  {
    if k == 0 {
      Fresh(whp, n);
    } else {
      hide Reached, Joining, Next;
      Joined(whp, n, k - 1);
      Joins(whp, n, k - 1);
      JoiningSize(whp, n, k - 1);
      Goes(whp, n, Joining(whp, n, k - 1, Arrive), k - 1);
      OneMoreWaits(whp, n, k - 1);
    }
  }

  lemma JoiningSize(whp: bool, n: nat, k: nat)
    requires k < n
    ensures |Joining(whp, n, k, Arrive).vm.pcs| == n
  {
  }

  lemma OneMoreWaits(whp: bool, n: nat, k: nat)
    requires k + 1 < n && |Joining(whp, n, k, Arrive).vm.pcs| == n
    ensures var m := Joining(whp, n, k, Arrive); m.(vm := Next(m.vm, k)) == Joining(whp, n, k + 1, Unborn)
  {
    assert Row(n, k)[k := WaitCommand] == Row(n, k + 1)[k + 1 := Unborn];
  }

  // The last one stores Paused.
  lemma LastWaits(whp: bool, n: nat)
    requires n >= 2 && |Joining(whp, n, n - 1, Arrive).vm.pcs| == n
    ensures var m := Joining(whp, n, n - 1, Arrive);
            var t := Next(m.vm, n - 1);
            |t.pcs| == n && m.(vm := Next(t, n - 1)) == Two(whp, n, Pause, Paused, n, WaitCommand, WaitCommand, PauseWait)
  {
    var t := Next(Joining(whp, n, n - 1, Arrive).vm, n - 1);
    assert t.pcs == Row(n, n - 1)[n - 1 := StorePaused];
    assert Row(n, n - 1)[n - 1 := WaitCommand] == [WaitCommand, WaitCommand] + Waiters(n - 2);
    assert Next(t, n - 1).pcs == Row(n, n - 1)[n - 1 := WaitCommand];
  }

  function Waiters(k: nat): (pcs: seq<Pc>)
    ensures |pcs| == k && forall i :: 0 <= i < k ==> pcs[i] == WaitCommand
  {
    seq(k, _ => WaitCommand)
  }

  // All but the first two vCPUs wait.
  function Two(whp: bool, n: nat, command: Command, word: Word, count: int, pc0: Pc, pc1: Pc, ctl: Ctl): Machine
    requires n >= 2
  {
    Machine(State(whp, command, word, count, false, false, [pc0, pc1] + Waiters(n - 2)), ctl)
  }

  lemma Cpu0(whp: bool, n: nat, command: Command, word: Word, count: int, pc0: Pc, pc1: Pc, ctl: Ctl)
    requires n >= 2 && Reached(whp, n, Two(whp, n, command, word, count, pc0, pc1, ctl)) && pc0 != Finish
    ensures var t := Next(Two(whp, n, command, word, count, pc0, pc1, ctl).vm, 0);
            Reached(whp, n, Two(whp, n, command, t.word, t.count, t.pcs[0], pc1, ctl))
  {
    hide Target, Reached;
    var m := Two(whp, n, command, word, count, pc0, pc1, ctl);
    var t := Next(m.vm, 0);
    Goes(whp, n, m, 0);
    assert t.pcs == [t.pcs[0], pc1] + Waiters(n - 2);
  }

  lemma Cpu1(whp: bool, n: nat, command: Command, word: Word, count: int, pc0: Pc, pc1: Pc, ctl: Ctl)
    requires n >= 2 && Reached(whp, n, Two(whp, n, command, word, count, pc0, pc1, ctl)) && pc1 != Finish
    ensures var t := Next(Two(whp, n, command, word, count, pc0, pc1, ctl).vm, 1);
            Reached(whp, n, Two(whp, n, command, t.word, t.count, pc0, t.pcs[1], ctl))
  {
    hide Target, Reached;
    var m := Two(whp, n, command, word, count, pc0, pc1, ctl);
    var t := Next(m.vm, 1);
    Goes(whp, n, m, 1);
    assert t.pcs == [pc0, t.pcs[1]] + Waiters(n - 2);
  }

  // The last vCPU completes the count, and pause() returns.
  lemma AllPark(whp: bool, n: nat)
    requires n >= 2
    ensures Reached(whp, n, Two(whp, n, Pause, Paused, n, WaitCommand, WaitCommand, Holding))
  {
    hide Reached, Play, Next, Joining;
    var m := Joining(whp, n, n - 1, Arrive);
    Joined(whp, n, n - 1);
    Joins(whp, n, n - 1);
    JoiningSize(whp, n, n - 1);
    LastWaits(whp, n);
    Goes(whp, n, m, n - 1);
    Goes(whp, n, m.(vm := Next(m.vm, n - 1)), n - 1);
    Then(whp, n, Two(whp, n, Pause, Paused, n, WaitCommand, WaitCommand, PauseWait), Proceed,
         Two(whp, n, Pause, Paused, n, WaitCommand, WaitCommand, Holding));
  }

  // resume() is called; vCPU 0 and vCPU 1 leave the wait loop, and vCPU 0 is no longer counted.
  lemma TwoLeave(whp: bool, n: nat)
    requires n >= 2
    ensures Reached(whp, n, Two(whp, n, Run, Paused, n - 1, RecheckCommand, Leave, ResumeWait))
  {
    hide Reached, Play;
    AllPark(whp, n);
    Then(whp, n, Two(whp, n, Pause, Paused, n, WaitCommand, WaitCommand, Holding), CallResume,
         Two(whp, n, Pause, Paused, n, WaitCommand, WaitCommand, ResumeCall));
    Then(whp, n, Two(whp, n, Pause, Paused, n, WaitCommand, WaitCommand, ResumeCall), Proceed,
         Two(whp, n, Run, Paused, n, WaitCommand, WaitCommand, ResumeWait));
    Cpu0(whp, n, Run, Paused, n, WaitCommand, WaitCommand, ResumeWait);
    Cpu1(whp, n, Run, Paused, n, Leave, WaitCommand, ResumeWait);
    Cpu0(whp, n, Run, Paused, n, Leave, Leave, ResumeWait);
  }

  // resume() returns once vCPU 0 has stored Running; vCPU 1 is still counted when pause() is called again.
  lemma LeftBehind(whp: bool, n: nat)
    requires n >= 2
    ensures Reached(whp, n, Two(whp, n, Pause, Running, n - 1, Enter, Leave, PauseWait))
  {
    hide Reached, Play;
    TwoLeave(whp, n);
    Cpu0(whp, n, Run, Paused, n - 1, RecheckCommand, Leave, ResumeWait);
    Cpu0(whp, n, Run, Paused, n - 1, RecheckDone, Leave, ResumeWait);
    Cpu0(whp, n, Run, Paused, n - 1, StoreRunning, Leave, ResumeWait);
    Then(whp, n, Two(whp, n, Run, Running, n - 1, Enter, Leave, ResumeWait), Proceed,
         Two(whp, n, Run, Running, n - 1, Enter, Leave, Ready));
    Then(whp, n, Two(whp, n, Run, Running, n - 1, Enter, Leave, Ready), CallPause,
         Two(whp, n, Run, Running, n - 1, Enter, Leave, PauseCall));
    Then(whp, n, Two(whp, n, Run, Running, n - 1, Enter, Leave, PauseCall), Proceed,
         Two(whp, n, Pause, Running, n - 1, Enter, Leave, PauseWait));
  }

  // vCPU 0 arrives again and completes the count, with vCPU 1 gone from the wait loop.
  lemma FullCount(whp: bool, n: nat)
    requires n >= 2
    ensures Reached(whp, n, Two(whp, n, Pause, Running, n, StorePaused, Leave, PauseWait))
  {
    hide Reached, Play;
    LeftBehind(whp, n);
    Cpu0(whp, n, Pause, Running, n - 1, Enter, Leave, PauseWait);
    Cpu0(whp, n, Pause, Running, n - 1, Guest, Leave, PauseWait);
    Cpu0(whp, n, Pause, Running, n - 1, Top, Leave, PauseWait);
    Cpu0(whp, n, Pause, Running, n - 1, Read, Leave, PauseWait);
    Cpu0(whp, n, Pause, Running, n - 1, Arrive, Leave, PauseWait);
  }

  lemma SlipsOut(whp: bool, n: nat)
    requires n >= 2
    ensures Reached(whp, n, Two(whp, n, Pause, Running, n - 1, StorePaused, StoreRunning, PauseWait))
  {
    hide Reached, Play;
    FullCount(whp, n);
    Cpu1(whp, n, Pause, Running, n, StorePaused, Leave, PauseWait);
    Cpu1(whp, n, Pause, Running, n - 1, StorePaused, RecheckCommand, PauseWait);
    Cpu1(whp, n, Pause, Running, n - 1, StorePaused, RecheckDone, PauseWait);
  }

  // vCPU 1 enters the run call before vCPU 0 stores Paused.
  lemma GuestEntered(whp: bool, n: nat)
    requires n >= 2
    ensures Reached(whp, n, Two(whp, n, Pause, Paused, n - 1, WaitCommand, Guest, Holding))
  {
    hide Reached, Play;
    SlipsOut(whp, n);
    Cpu1(whp, n, Pause, Running, n - 1, StorePaused, StoreRunning, PauseWait);
    Cpu1(whp, n, Pause, Running, n - 1, StorePaused, Enter, PauseWait);
    Cpu0(whp, n, Pause, Running, n - 1, StorePaused, Guest, PauseWait);
    Then(whp, n, Two(whp, n, Pause, Paused, n - 1, WaitCommand, Guest, PauseWait), Proceed,
         Two(whp, n, Pause, Paused, n - 1, WaitCommand, Guest, Holding));
  }

  // With several vCPUs awaited calls are not enough: after pause(), resume(), pause() the last call has seen
  // Paused while vCPU 1 is in the run call.
  lemma SeveralEscape(whp: bool, n: nat) returns (m: Machine)
    requires n >= 2
    ensures Reached(whp, n, m) && |m.vm.pcs| == n
    ensures m.ctl == Holding && Undisturbed(m.vm) && m.vm.command == Pause && m.vm.word == Paused
    ensures m.vm.pcs[1] == Guest
  {
    hide Reached;
    GuestEntered(whp, n);
    m := Two(whp, n, Pause, Paused, n - 1, WaitCommand, Guest, Holding);
  }

  // After these calls: a pause() that saw Paused as the last call finds every vCPU in the wait loop.
  ghost predicate Safe(whp: bool, cpus: nat, moves: seq<Move>) {
    var r := Play(Machine(Init(whp, cpus), Ready), moves);
    r.Some? && r.value.ctl == Holding && Undisturbed(r.value.vm) ==> Parked(r.value.vm)
  }

  // Awaiting every call makes pause() safe, over all runs, exactly for machines with at most one vCPU.
  lemma AwaitedIff(whp: bool, cpus: nat)
    ensures (forall moves :: Safe(whp, cpus, moves)) <==> cpus <= 1
  {
    hide Play;
    if cpus <= 1 {
      forall moves ensures Safe(whp, cpus, moves) {
        if cpus == 0 { NoCpu(whp, moves); } else { AwaitedPause(whp, moves); }
      }
    } else {
      var m := SeveralEscape(whp, cpus);
      var moves :| Play(Machine(Init(whp, cpus), Ready), moves) == Some(m);
      assert !Safe(whp, cpus, moves);
    }
  }
}
