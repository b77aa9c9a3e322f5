// The vCPU threads of the HVF back end (native/hvf/backend.cc:3066-3113, 3330-3354, 3440-3495, 3597-3636):
// PSCI power states and the pause flags, both kept in the slots under lifecycle_mu. Every locked section and
// every atomic load or store outside one is a step. A run begins where start_vcpus has been set, with all
// vCPUs created.
module HvfCpus {
  import opened Bytes

  const PSCI_SUCCESS: int := 0
  const PSCI_INVALID_PARAMS: int := -2
  const PSCI_ALREADY_ON: int := -4

  datatype Command = Run | Pause | Stop

  datatype Word = Starting | Running | Paused | Stopping

  datatype Power = Off | OnPending | On

  // What happened to one vCPU: a CPU_ON for it succeeded, its thread loaded an entry point, it was turned off.
  datatype Happening = Requested(entry: u64, context: u64) | Started(entry: u64, context: u64) | TurnedOff

  // Where a vCPU thread stands: the locked section or atomic operation it performs next.
  datatype Pc =
    | Loaded         // registers set up, before set_state(Running)
    | Head           // stop_requested at the head of the run loop
    | ReadOrder      // control.command() == Stop
    | StoreStopping | RequestStop
    | AskPause       // handle_pause_if_requested reads the command
    | Flag           // lifecycle_mu: raise the flag, perhaps set_state(Paused)
    | Spin           // stop_requested in the pause loop
    | SpinCommand    // control.command() in the pause loop
    | Unflag         // lifecycle_mu: lower the flag
    | AfterPause     // the stop_requested that handle_pause_if_requested returns
    | StoreRunning
    | Guest          // inside hv_vcpu_run, or handling its exit
    | OffCheck       // stop_requested after a CPU_OFF has left the run loop
    | Resting        // lifecycle_mu: mark the slot Off and start to wait
    | Asleep         // waiting on lifecycle_cv
    | Closing        // lifecycle_mu: the last update of the slot
    | Gone

  datatype Vcpu = Vcpu(
    pc: Pc, powered: bool, startRequested: bool, paused: bool, power: Power, entry: u64, context: u64,
    past: seq<Happening>)

  datatype State = State(cpus: seq<Vcpu>, pausedVcpus: nat, command: Command, word: Word, stop: bool)

  function Init(cpus: nat, entry: u64, dtb: u64): State {
    State(seq(cpus, i => if i == 0 then Vcpu(Loaded, true, false, false, On, entry, dtb, [])
                         else Vcpu(Resting, false, false, false, Off, 0, 0, [])),
          0, Run, Starting, false)
  }

  datatype Event =
    | Go(cpu: nat)                                                // the thread's next step; in Guest, any exit
    | CpuOn(cpu: nat, mpidr: u64, entry: u64, context: u64)       // the guest's PSCI CPU_ON
    | CpuOff(cpu: nat)                                            // the guest's PSCI CPU_OFF
    | Fail(cpu: nat)                                              // an exit that requests stop
    | Order(command: Command) | HostStop

  // PoweredCpuCountLocked counts the slots that are not Off, but at least one.
  function Powered(cpus: seq<Vcpu>): (n: nat) {
    if cpus == [] then 0 else
      Powered(cpus[..|cpus| - 1]) + if cpus[|cpus| - 1].power != Off then 1 else 0
  }

  function Flagged(cpus: seq<Vcpu>): (n: nat) {
    if cpus == [] then 0 else
      Flagged(cpus[..|cpus| - 1]) + if cpus[|cpus| - 1].paused then 1 else 0
  }

  method PoweredCpuCount(cpus: seq<Vcpu>) returns (count: nat)
    ensures count == Max(Powered(cpus), 1)
  {
    count := 0;
    for i := 0 to |cpus|
      invariant count == Powered(cpus[..i])
    {
      assert cpus[..i + 1][..i] == cpus[..i];
      if cpus[i].power != Off { count := count + 1; }
    }
    assert cpus[..|cpus|] == cpus;
    count := Max(count, 1);
  }

  // CpuIndexFromMpidr
  function Target(cpus: nat, mpidr: u64): Option<nat> {
    if mpidr < 0x100 && mpidr < cpus then Some(mpidr) else None
  }

  // PsciAffinityInfoState: 0 for On, 1 for Off, 2 for OnPending.
  method AffinityInfo(cpus: seq<Vcpu>, mpidr: u64, level: u64) returns (answer: int)
    ensures level == 0 && Target(|cpus|, mpidr).Some? ==>
      answer == match cpus[mpidr].power case On => 0 case Off => 1 case OnPending => 2
    ensures 1 <= level <= 3 && mpidr == 0 ==>
      && (answer == 0 <==> exists i :: 0 <= i < |cpus| && cpus[i].power == On)
      && (answer == 1 <==> forall i :: 0 <= i < |cpus| ==> cpus[i].power == Off)
      && 0 <= answer <= 2
    ensures (level == 0 && Target(|cpus|, mpidr).None?) || level > 3 || (level > 0 && mpidr != 0) ==>
      answer == PSCI_INVALID_PARAMS
  {
    if level == 0 {
      if Target(|cpus|, mpidr).None? { return PSCI_INVALID_PARAMS; }
      match cpus[mpidr].power {
        case On => return 0;
        case Off => return 1;
        case OnPending => return 2;
      }
    }
    if level <= 3 && mpidr == 0 {
      var pending := false;
      for i := 0 to |cpus|
        invariant forall j :: 0 <= j < i ==> cpus[j].power != On
        invariant pending <==> exists j :: 0 <= j < i && cpus[j].power == OnPending
      {
        if cpus[i].power == On { return 0; }
        if cpus[i].power == OnPending { pending := true; }
      }
      return if pending then 2 else 1;
    }
    return PSCI_INVALID_PARAMS;
  }

  // The slot takes the start that was requested, in the critical section that found the request.
  function Start(c: Vcpu): Vcpu {
    c.(pc := Loaded, startRequested := false, powered := true, power := On, past := c.past
        + [Started(c.entry, c.context)])
  }

  // The thread's own part of a step: what it does to its slot.
  function Own(s: State, c: Vcpu): Vcpu {
    match c.pc
    case Loaded => c.(pc := Head)
    case Head => c.(pc := if s.stop then Closing else ReadOrder)
    case ReadOrder => c.(pc := if s.command == Stop then StoreStopping else AskPause)
    case StoreStopping => c.(pc := RequestStop)
    case RequestStop => c.(pc := Closing)
    case AskPause => c.(pc := if s.command == Pause then Flag else StoreRunning)
    case Flag => c.(pc := Spin, paused := true)
    case Spin => c.(pc := if s.stop then Unflag else SpinCommand)
    case SpinCommand => c.(pc := if s.command == Pause then Spin else Unflag)
    case Unflag => c.(pc := AfterPause, paused := false)
    case AfterPause => c.(pc := if s.stop then Closing else StoreRunning)
    case StoreRunning => c.(pc := Guest)
    case Guest => c.(pc := Head)
    case OffCheck => c.(pc := if s.stop then Closing else Resting)
    case Resting =>
      if s.stop then c.(pc := Closing) else
        var off := c.(powered := false, power := Off, paused := false);
        if off.startRequested then Start(off) else off.(pc := Asleep)
    case Asleep => if s.stop then c.(pc := Closing) else if c.startRequested then Start(c) else c
    case Closing => c.(pc := Gone, powered := false, power := Off)
    case Gone => c
  }

  // paused_vcpus and the shared words after the step.
  function Next(s: State, i: nat): State
    requires i < |s.cpus|
  {
    var c := s.cpus[i];
    var cpus := s.cpus[i := Own(s, c)];
    var count := if c.pc == Flag && !c.paused then s.pausedVcpus + 1
                 else if c.pc == Unflag && c.paused && s.pausedVcpus > 0 then s.pausedVcpus - 1 else s.pausedVcpus;
    s.(cpus := cpus, pausedVcpus := count,
       word := if c.pc == Loaded || c.pc == StoreRunning then Running
               else if c.pc == StoreStopping then Stopping
               else if c.pc == Flag && count >= Max(Powered(cpus), 1) then Paused else s.word,
       stop := s.stop || c.pc == RequestStop)
  }

  // CPU_ON: the value it returns and the target's slot after it.
  function CpuOnResult(cpus: seq<Vcpu>, mpidr: u64, entry: u64): int {
    var target := Target(|cpus|, mpidr);
    if target.None? || entry == 0 then PSCI_INVALID_PARAMS
    else if target.value == 0 || cpus[target.value].power != Off || cpus[target.value].startRequested then PSCI_ALREADY_ON
    else PSCI_SUCCESS
  }

  function Request(c: Vcpu, entry: u64, context: u64): Vcpu {
    c.(entry := entry, context := context, startRequested := true, power := OnPending,
       past := c.past + [Requested(entry, context)])
  }

  function Step(s: State, e: Event): Option<State> {
    match e
    case Go(i) => if i < |s.cpus| then Some(Next(s, i)) else None
    case CpuOn(i, mpidr, entry, context) =>
      if i < |s.cpus| && s.cpus[i].pc == Guest then
        var back := s.cpus[i := s.cpus[i].(pc := Head)];
        Some(s.(cpus := if CpuOnResult(s.cpus, mpidr, entry) == PSCI_SUCCESS
                        then back[mpidr := Request(back[mpidr], entry, context)] else back))
      else None
    case CpuOff(i) =>
      if i < |s.cpus| && s.cpus[i].pc == Guest then
        if i == 0 then Some(s.(cpus := s.cpus[0 := s.cpus[0].(pc := Head)], stop := true))
        else Some(s.(cpus := s.cpus[i := s.cpus[i].(pc := OffCheck, powered := false, power := Off, paused := false,
                                                    past := s.cpus[i].past + [TurnedOff])]))
      else None
    case Fail(i) =>
      if i < |s.cpus| && s.cpus[i].pc == Guest then
        Some(s.(cpus := s.cpus[i := s.cpus[i].(pc := Closing)], stop := true))
      else None
    case Order(c) => Some(s.(command := c))
    case HostStop => Some(s.(stop := true))
  }

  function Exec(s: State, events: seq<Event>): Option<State> {
    if events == [] then Some(s) else
      match Exec(s, events[..|events| - 1])
      case None => None
      case Some(m) => Step(m, events[|events| - 1])
  }

  // ---- The history of one vCPU ----

  datatype Stage = Idle | Pending(entry: u64, context: u64) | Live | Broken

  function StageOf(boot: bool, past: seq<Happening>): Stage {
    if past == [] then (if boot then Live else Idle) else
      match (StageOf(boot, past[..|past| - 1]), past[|past| - 1])
      case (Idle, Requested(e, c)) => Pending(e, c)
      case (Pending(e, c), Started(e', c')) => if e == e' && c == c' then Live else Broken
      case (Live, TurnedOff) => Idle
      case _ => Broken
  }

  lemma StageNext(boot: bool, past: seq<Happening>, h: Happening)
    ensures StageOf(boot, past + [h]) ==
      match (StageOf(boot, past), h)
      case (Idle, Requested(e, c)) => Pending(e, c)
      case (Pending(e, c), Started(e', c')) => if e == e' && c == c' then Live else Broken
      case (Live, TurnedOff) => Idle
      case _ => Broken
  {
    assert (past + [h])[..|past|] == past;
  }

  // A history in the right stages repeats "CPU_ON succeeded, started there, turned off" and nothing else:
  // each start uses the entry and context of the one successful CPU_ON before it, and between two
  // successful CPU_ONs the vCPU was turned off.
  predicate CyclesAt(past: seq<Happening>, k: nat)
    requires k < |past|
  {
    if k % 3 == 0 then past[k].Requested?
    else if k % 3 == 1 then past[k - 1].Requested? && past[k] == Started(past[k - 1].entry, past[k - 1].context)
    else past[k].TurnedOff?
  }

  lemma {:induction false} Cycles(past: seq<Happening>)
    requires StageOf(false, past) != Broken
    ensures forall k :: 0 <= k < |past| ==> CyclesAt(past, k)
    ensures match StageOf(false, past)
            case Idle => |past| % 3 == 0
            case Pending(e, c) => |past| % 3 == 1 && past[|past| - 1] == Requested(e, c)
            case Live => |past| % 3 == 2
            case Broken => false
  {
    if past != [] {
      var n := |past| - 1;
      Cycles(past[..n]);
      forall k | 0 <= k < n ensures CyclesAt(past, k) { assert CyclesAt(past[..n], k); }
    }
  }

  // ---- What holds at every lock release ----

  predicate Awake(pc: Pc) { !Down(pc) && pc != Closing && pc != Gone }

  predicate Down(pc: Pc) { pc == OffCheck || pc == Resting || pc == Asleep }

  predicate InPause(pc: Pc) { pc == Spin || pc == SpinCommand || pc == Unflag }

  // What the slot of a vCPU must hold while its thread stands at pc.
  predicate Fits(boot: bool, c: Vcpu, stop: bool) {
    && c.paused == InPause(c.pc)
    && (boot ==> c.past == [] && !Down(c.pc))
    && (Awake(c.pc) ==> c.powered && c.power == On && !c.startRequested && StageOf(boot, c.past) == Live)
    && (Down(c.pc) ==> !c.powered && (if c.startRequested then c.power == OnPending
        && StageOf(boot, c.past) == Pending(c.entry, c.context)
                                      else c.power == Off && StageOf(boot, c.past) == Idle))
    && (c.pc == Closing || c.pc == Gone ==> stop)
  }

  ghost predicate AllFit(s: State) { forall i :: 0 <= i < |s.cpus| ==> Fits(i == 0, s.cpus[i], s.stop) }

  ghost predicate Good(s: State) { AllFit(s) && s.pausedVcpus == Flagged(s.cpus) }

  lemma OwnFits(boot: bool, s: State, c: Vcpu)
    requires Fits(boot, c, s.stop)
    ensures Fits(boot, Own(s, c), s.stop || c.pc == RequestStop)
  {
    hide StageOf;
    if Down(c.pc) { DownFits(boot, s, c); } else { AwakeFits(boot, s, c); }
  }

  lemma AwakeFits(boot: bool, s: State, c: Vcpu)
    requires Fits(boot, c, s.stop) && !Down(c.pc)
    ensures Fits(boot, Own(s, c), s.stop || c.pc == RequestStop)
  {
    hide StageOf, Own;
    AwakeSlot(s, c);
    AwakeMoves(s, c);
  }

  lemma DownFits(boot: bool, s: State, c: Vcpu)
    requires Fits(boot, c, s.stop) && Down(c.pc)
    ensures Fits(boot, Own(s, c), s.stop)
  {
    StageNext(boot, c.past, Started(c.entry, c.context));
  }

  // A thread that is not down keeps its slot, but for the flag and the final update.
  lemma AwakeSlot(s: State, c: Vcpu)
    requires !Down(c.pc)
    ensures var d := Own(s, c);
      && d.past == c.past && d.startRequested == c.startRequested
      && (c.pc != Closing ==> d.powered == c.powered && d.power == c.power)
      && d.paused == (c.pc == Flag || (c.paused && c.pc != Unflag))
  {
  }

  // Where it goes.
  lemma AwakeMoves(s: State, c: Vcpu)
    requires !Down(c.pc)
    ensures var d := Own(s, c).pc;
      && !Down(d) && (Awake(d) ==> Awake(c.pc))
      && (InPause(d) <==> c.pc == Flag || (InPause(c.pc) && c.pc != Unflag))
      && (d == Closing || d == Gone ==> s.stop || c.pc == RequestStop || c.pc == Closing || c.pc == Gone)
  {
  }

  lemma RequestFits(c: Vcpu, stop: bool, entry: u64, context: u64)
    requires Fits(false, c, stop) && c.power == Off && !c.startRequested
    ensures Fits(false, Request(c, entry, context), stop)
  {
    StageNext(false, c.past, Requested(entry, context));
  }

  lemma StepFits(s: State, e: Event)
    requires AllFit(s) && Step(s, e).Some?
    ensures AllFit(Step(s, e).value)
  {
    hide StageOf, Own, Powered, Max, Fits, CpuOnResult, Target;
    match e {
      case Go(i) => GoFits(s, i);
      case CpuOn(i, mpidr, entry, context) => CpuOnFits(s, e);
      case CpuOff(i) => LeftFits(s, e);
      case Fail(i) => LeftFits(s, e);
      case HostStop => StopFits(s);
      case Order(_) =>
    }
  }

  lemma GoFits(s: State, i: nat)
    requires AllFit(s) && i < |s.cpus|
    ensures AllFit(Next(s, i))
  {
    hide StageOf, Own, Powered, Max, Fits;
    OwnFits(i == 0, s, s.cpus[i]);
    var t := Next(s, i);
    forall k | 0 <= k < |t.cpus| ensures Fits(k == 0, t.cpus[k], t.stop) {
      if k != i { FitsUntil(k == 0, s.cpus[k], s.stop, t.stop); }
    }
  }

  lemma FitsUntil(boot: bool, c: Vcpu, stop: bool, later: bool)
    requires Fits(boot, c, stop) && (stop ==> later)
    ensures Fits(boot, c, later)
  {
  }

  lemma StopFits(s: State)
    requires AllFit(s)
    ensures AllFit(s.(stop := true))
  {
    hide Fits;
    forall k | 0 <= k < |s.cpus| ensures Fits(k == 0, s.cpus[k], true) { FitsUntil(k == 0, s.cpus[k], s.stop, true); }
  }

  // The slot of a vCPU that handles an exit.
  lemma ExitFits(boot: bool, c: Vcpu, stop: bool)
    requires Fits(boot, c, stop) && c.pc == Guest
    ensures Fits(boot, c.(pc := Head), stop) && Fits(boot, c.(pc := Head), true) && Fits(boot, c.(pc := Closing), true)
    ensures !boot ==> Fits(boot, c.(pc := OffCheck, powered := false, power := Off, paused := false,
                                    past := c.past + [TurnedOff]), stop)
  {
    hide StageOf;
    StageNext(boot, c.past, TurnedOff);
  }

  lemma CpuOnFits(s: State, e: Event)
    requires AllFit(s) && Step(s, e).Some? && e.CpuOn?
    ensures AllFit(Step(s, e).value)
  {
    hide StageOf, Fits, Request;
    ExitFits(e.cpu == 0, s.cpus[e.cpu], s.stop);
    if CpuOnResult(s.cpus, e.mpidr, e.entry) == PSCI_SUCCESS {
      NotInGuest(s.cpus[e.mpidr], s.stop);
      RequestFits(s.cpus[e.mpidr], s.stop, e.entry, e.context);
    }
  }

  lemma NotInGuest(c: Vcpu, stop: bool)
    requires Fits(false, c, stop) && c.power == Off
    ensures c.pc != Guest
  {
  }

  lemma LeftFits(s: State, e: Event)
    requires AllFit(s) && Step(s, e).Some? && (e.CpuOff? || e.Fail?)
    ensures AllFit(Step(s, e).value)
  {
    hide StageOf, Fits;
    ExitFits(e.cpu == 0, s.cpus[e.cpu], s.stop);
    StopFits(s);
  }

  lemma {:induction false} FlaggedUpdate(cpus: seq<Vcpu>, i: nat, c: Vcpu)
    requires i < |cpus|
    ensures Flagged(cpus[i := c]) == Flagged(cpus) - (if cpus[i].paused then 1 else 0) + (if c.paused then 1 else 0)
  {
    var last := |cpus| - 1;
    if i == last {
      assert cpus[i := c][..last] == cpus[..last];
    } else {
      assert cpus[i := c][..last] == cpus[..last][i := c];
      FlaggedUpdate(cpus[..last], i, c);
    }
  }

  lemma OwnFlag(s: State, c: Vcpu)
    requires c.paused == InPause(c.pc)
    ensures Own(s, c).paused == (c.pc == Flag || (c.paused && c.pc != Unflag))
  {
  }

  lemma {:induction false} NoneFlagged(cpus: seq<Vcpu>)
    requires forall i :: 0 <= i < |cpus| ==> !cpus[i].paused
    ensures Flagged(cpus) == 0
  {
    if cpus != [] { NoneFlagged(cpus[..|cpus| - 1]); }
  }

  lemma StepCount(s: State, e: Event)
    requires Good(s) && Step(s, e).Some?
    ensures var t := Step(s, e).value; t.pausedVcpus == Flagged(t.cpus)
  {
    hide StageOf, Own, Powered, Max, Flagged;
    match e {
      case Go(i) =>
        OwnFlag(s, s.cpus[i]);
        FlaggedUpdate(s.cpus, i, Own(s, s.cpus[i]));
      case CpuOn(i, mpidr, entry, context) =>
        var back := s.cpus[i := s.cpus[i].(pc := Head)];
        FlaggedUpdate(s.cpus, i, s.cpus[i].(pc := Head));
        if CpuOnResult(s.cpus, mpidr, entry) == PSCI_SUCCESS {
          FlaggedUpdate(back, mpidr, Request(back[mpidr], entry, context));
        }
      case CpuOff(i) => FlaggedUpdate(s.cpus, i, Step(s, e).value.cpus[i]);
      case Fail(i) => FlaggedUpdate(s.cpus, i, Step(s, e).value.cpus[i]);
      case _ =>
    }
  }

  lemma {:induction false} RunGood(cpus: nat, entry: u64, dtb: u64, events: seq<Event>)
    ensures var r := Exec(Init(cpus, entry, dtb), events); r.Some? ==> Good(r.value) && |r.value.cpus| == cpus
  {
    hide Fits, Own, StageOf;
    if events == [] {
      InitGood(cpus, entry, dtb);
    } else {
      RunGood(cpus, entry, dtb, events[..|events| - 1]);
      var m := Exec(Init(cpus, entry, dtb), events[..|events| - 1]);
      if m.Some? && Step(m.value, events[|events| - 1]).Some? {
        StepFits(m.value, events[|events| - 1]);
        StepCount(m.value, events[|events| - 1]);
      }
    }
  }

  lemma InitGood(cpus: nat, entry: u64, dtb: u64)
    ensures Good(Init(cpus, entry, dtb))
  {
    NoneFlagged(Init(cpus, entry, dtb).cpus);
  }

  // ---- PSCI ----

  // Before stop, at every lock release: a start request is outstanding exactly while the slot is OnPending,
  // a vCPU that may run guest code is On, and every history is a repetition of CPU_ON, start, off.
  ghost predicate Psci(c: Vcpu, boot: bool) {
    && (c.startRequested <==> c.power == OnPending)
    && (c.power == On <==> c.powered) && (c.power == On <==> Awake(c.pc))
    && (c.pc == Guest ==> c.power == On)
    && (!boot ==> forall k :: 0 <= k < |c.past| ==> CyclesAt(c.past, k))
    && (!boot ==> |c.past| % 3 == match c.power case Off => 0 case OnPending => 1 case On => 2)
    && (boot ==> c.power == On && c.past == [])
  }

  lemma PsciProtocol(cpus: nat, entry: u64, dtb: u64, events: seq<Event>, s: State)
    requires Exec(Init(cpus, entry, dtb), events) == Some(s) && !s.stop
    ensures |s.cpus| == cpus && forall i :: 0 <= i < cpus ==> Psci(s.cpus[i], i == 0)
  {
    hide Exec, Init, StageOf;
    RunGood(cpus, entry, dtb, events);
    forall i | 0 <= i < cpus ensures Psci(s.cpus[i], i == 0) {
      assert Fits(i == 0, s.cpus[i], s.stop);
      if i > 0 { HistoryCycles(s.cpus[i]); }
    }
  }

  lemma HistoryCycles(c: Vcpu)
    requires Fits(false, c, false)
    ensures StageOf(false, c.past) != Broken && forall k :: 0 <= k < |c.past| ==> CyclesAt(c.past, k)
    ensures |c.past| % 3 == match c.power case Off => 0 case OnPending => 1 case On => 2
  {
    Cycles(c.past);
  }

  // CPU_ON succeeds exactly for a valid vCPU other than 0 whose last CPU_ON, if any, has been followed by a
  // start and a CPU_OFF.
  lemma CpuOnTruth(cpus: nat, entry: u64, dtb: u64, events: seq<Event>, s: State, mpidr: u64, pc: u64)
    requires Exec(Init(cpus, entry, dtb), events) == Some(s) && !s.stop
    ensures |s.cpus| == cpus
    ensures CpuOnResult(s.cpus, mpidr, pc) == PSCI_SUCCESS <==>
            pc != 0 && 0 < mpidr < 0x100 && mpidr < |s.cpus| && |s.cpus[mpidr].past| % 3 == 0
    ensures CpuOnResult(s.cpus, mpidr, pc) == PSCI_INVALID_PARAMS <==> pc == 0 || mpidr >= 0x100 || mpidr >= cpus
  {
    hide Exec, Init;
    PsciProtocol(cpus, entry, dtb, events, s);
    if mpidr < 0x100 && mpidr < cpus { assert Psci(s.cpus[mpidr], mpidr == 0); }
  }

  // CPU_ON, told from its arguments: the target of an accepted call holds exactly that entry and context and
  // waits for its start, and every other slot stays as it was.
  lemma CpuOnEffect(s: State, i: nat, mpidr: u64, entry: u64, context: u64, t: State)
    requires Step(s, CpuOn(i, mpidr, entry, context)) == Some(t)
    ensures |t.cpus| == |s.cpus| && i < |s.cpus| && (t.command, t.word, t.stop) == (s.command, s.word, s.stop)
    ensures var accepted := entry != 0 && 0 < mpidr < 0x100 && mpidr < |s.cpus|
                            && s.cpus[mpidr].power == Off && !s.cpus[mpidr].startRequested;
            && (accepted ==>
                  var c := t.cpus[mpidr];
                  && c.entry == entry && c.context == context && c.startRequested && c.power == OnPending
                  && c.past == s.cpus[mpidr].past + [Requested(entry, context)])
            && forall k: nat :: k < |s.cpus| && !(accepted && k == mpidr) ==>
                 t.cpus[k] == if k == i then s.cpus[k].(pc := Head) else s.cpus[k]
  {
  }

  // A sleeping vCPU whose start was requested starts with its next step, where its slot says.
  lemma StartEffect(s: State, i: nat)
    requires i < |s.cpus| && !s.stop && (s.cpus[i].pc == Resting || s.cpus[i].pc == Asleep) && s.cpus[i].startRequested
    ensures Step(s, Go(i)).Some?
    ensures var c, d := s.cpus[i], Step(s, Go(i)).value.cpus[i];
            && d.past == c.past + [Started(c.entry, c.context)]
            && d.power == On && d.powered && !d.startRequested && d.pc == Loaded
  {
  }

  // CPU_OFF turns a vCPU off and takes it out of the guest; on the boot vCPU it stops the machine.
  lemma CpuOffEffect(s: State, i: nat, t: State)
    requires Step(s, CpuOff(i)) == Some(t)
    ensures |t.cpus| == |s.cpus| && i < |s.cpus|
    ensures i == 0 ==> t.stop
    ensures i > 0 ==>
            var c := t.cpus[i];
            && c.power == Off && !c.powered && c.pc != Guest && c.past == s.cpus[i].past + [TurnedOff] && t.stop == s.stop
    ensures forall k: nat :: k < |s.cpus| && k != i ==> t.cpus[k] == s.cpus[k]
  {
  }

  // The event e in state s is what puts h into the history of vCPU k.
  predicate Causes(s: State, e: Event, k: nat, h: Happening)
    requires k < |s.cpus|
  {
    match h
    case Requested(entry, context) =>
      && e.CpuOn? && e.mpidr == k && e.entry == entry != 0 && e.context == context
      && 0 < k < 0x100 && s.cpus[k].power == Off && !s.cpus[k].startRequested
    case Started(entry, context) =>
      && e == Go(k) && !s.stop && Down(s.cpus[k].pc) && s.cpus[k].startRequested
      && s.cpus[k].entry == entry && s.cpus[k].context == context
    case TurnedOff => e == CpuOff(k) && s.cpus[k].pc == Guest
  }

  lemma PastGrows(s: State, e: Event, k: nat)
    requires Step(s, e).Some? && k < |s.cpus|
    ensures |Step(s, e).value.cpus| == |s.cpus|
    ensures var was, now := s.cpus[k].past, Step(s, e).value.cpus[k].past;
            now == was || (|now| == |was| + 1 && now[..|was|] == was && Causes(s, e, k, now[|was|]))
  {
    hide Powered, Max;
    match e {
      case Go(i) => OwnPast(s, s.cpus[i], i);
      case CpuOn(i, mpidr, entry, context) =>
      case _ =>
    }
  }

  lemma OwnPast(s: State, c: Vcpu, k: nat)
    ensures var was, now := c.past, Own(s, c).past;
            now == was || (now == was + [Started(c.entry, c.context)] && !s.stop && Down(c.pc) && c.startRequested)
  {
  }

  // Every entry of a history was put there by one event of the run, when the history was what stands before it.
  ghost predicate CausedAt(init: State, events: seq<Event>, n: nat, k: nat, past: seq<Happening>, j: nat)
    requires n < |events| && j < |past|
  {
    var r := Exec(init, events[..n]);
    r.Some? && k < |r.value.cpus| && r.value.cpus[k].past == past[..j] && Causes(r.value, events[n], k, past[j])
  }

  lemma {:induction false} HistoryEvent(cpus: nat, entry: u64, dtb: u64, events: seq<Event>, s: State, k: nat, j: nat)
    returns (n: nat)
    requires Exec(Init(cpus, entry, dtb), events) == Some(s) && k < |s.cpus| && j < |s.cpus[k].past|
    ensures n < |events| && CausedAt(Init(cpus, entry, dtb), events, n, k, s.cpus[k].past, j)
  {
    hide Step, Causes;
    var init, last := Init(cpus, entry, dtb), |events| - 1;
    NoHistory(cpus, entry, dtb);
    var m := Exec(init, events[..last]).value;
    SameCount(m, events[last]);
    PastGrows(m, events[last], k);
    if j < |m.cpus[k].past| {
      n := HistoryEvent(cpus, entry, dtb, events[..last], m, k, j);
      assert events[..last][..n] == events[..n];
      assert s.cpus[k].past[..j] == m.cpus[k].past[..j];
    } else {
      n := last;
      assert s.cpus[k].past[..j] == m.cpus[k].past;
    }
  }

  lemma NoHistory(cpus: nat, entry: u64, dtb: u64)
    ensures forall k :: 0 <= k < |Init(cpus, entry, dtb).cpus| ==> Init(cpus, entry, dtb).cpus[k].past == []
  {
  }

  lemma SameCount(s: State, e: Event)
    requires Step(s, e).Some?
    ensures |Step(s, e).value.cpus| == |s.cpus|
  {
  }

  // A vCPU that is down with a start request has that request as the end of its history.
  lemma RequestLast(s: State, k: nat)
    requires Good(s) && k < |s.cpus| && Down(s.cpus[k].pc) && s.cpus[k].startRequested
    ensures var c := s.cpus[k]; c.past != [] && c.past[|c.past| - 1] == Requested(c.entry, c.context)
  {
    hide StageOf;
    assert Fits(k == 0, s.cpus[k], s.stop);
    Cycles(s.cpus[k].past);
  }

  // Over every run: a vCPU only ever starts where an earlier CPU_ON of the guest for it said, with that
  // CPU_ON's entry and context.
  lemma StartedAsAsked(cpus: nat, entry: u64, dtb: u64, events: seq<Event>, s: State, k: nat, j: nat)
    requires Exec(Init(cpus, entry, dtb), events) == Some(s) && k < |s.cpus| && j < |s.cpus[k].past|
    requires s.cpus[k].past[j].Started?
    ensures exists n, m :: 0 <= n < m < |events| && events[m] == Go(k) && events[n].CpuOn? && events[n].mpidr == k
              && events[n].entry == s.cpus[k].past[j].entry && events[n].context == s.cpus[k].past[j].context
  {
    hide Exec, Init, Good, Fits, Down;
    var init, past := Init(cpus, entry, dtb), s.cpus[k].past;
    var m := HistoryEvent(cpus, entry, dtb, events, s, k, j);
    var v := Exec(init, events[..m]).value;
    RunGood(cpus, entry, dtb, events[..m]);
    RequestLast(v, k);
    var n := HistoryEvent(cpus, entry, dtb, events[..m], v, k, j - 1);
    assert events[..m][n] == events[n];
  }

  // ---- Pause ----

  lemma {:induction false} FlaggedAll(cpus: seq<Vcpu>)
    requires forall i :: 0 <= i < |cpus| && cpus[i].paused ==> cpus[i].power != Off
    ensures Flagged(cpus) <= Powered(cpus)
    ensures Flagged(cpus) == Powered(cpus) <==> forall i :: 0 <= i < |cpus| && cpus[i].power != Off ==> cpus[i].paused
  {
    if cpus != [] {
      var last := |cpus| - 1;
      FlaggedAll(cpus[..last]);
      assert cpus == cpus[..last] + [cpus[last]];
    }
  }

  lemma {:induction false} SomeFlagged(cpus: seq<Vcpu>, i: nat)
    requires i < |cpus| && cpus[i].paused
    ensures Flagged(cpus) >= 1
  {
    if i < |cpus| - 1 { SomeFlagged(cpus[..|cpus| - 1], i); }
  }

  // In every reachable state the counter is the number of raised flags and a flagged slot is powered; with
  // some flag raised, the test of handle_pause_if_requested succeeds exactly when every slot that is not
  // Off is flagged, and then nobody is in the guest.
  lemma PauseAccounting(cpus: nat, entry: u64, dtb: u64, events: seq<Event>, s: State)
    requires Exec(Init(cpus, entry, dtb), events) == Some(s)
    ensures s.pausedVcpus == Flagged(s.cpus)
    ensures forall i :: 0 <= i < |s.cpus| && s.cpus[i].paused ==> s.cpus[i].powered && s.cpus[i].power == On
    ensures (exists i :: 0 <= i < |s.cpus| && s.cpus[i].paused) ==>
            (s.pausedVcpus >= Max(Powered(s.cpus), 1) <==>
             forall i :: 0 <= i < |s.cpus| && s.cpus[i].power != Off ==> s.cpus[i].paused)
    ensures s.pausedVcpus >= Max(Powered(s.cpus), 1) ==> forall i :: 0 <= i < |s.cpus| ==> s.cpus[i].pc != Guest
  {
    hide Exec, Init, StageOf, Powered, Flagged;
    RunGood(cpus, entry, dtb, events);
    FlaggedIffAll(s);
  }

  lemma FlaggedIffAll(s: State)
    requires Good(s)
    ensures forall i :: 0 <= i < |s.cpus| && s.cpus[i].paused ==> s.cpus[i].powered && s.cpus[i].power == On
    ensures (exists i :: 0 <= i < |s.cpus| && s.cpus[i].paused) ==>
            (s.pausedVcpus >= Max(Powered(s.cpus), 1) <==>
             forall i :: 0 <= i < |s.cpus| && s.cpus[i].power != Off ==> s.cpus[i].paused)
    ensures s.pausedVcpus >= Max(Powered(s.cpus), 1) ==> forall i :: 0 <= i < |s.cpus| ==> s.cpus[i].pc != Guest
  {
    hide StageOf, Powered, Flagged;
    forall i | 0 <= i < |s.cpus| && s.cpus[i].paused ensures s.cpus[i].powered && s.cpus[i].power == On {
      assert Fits(i == 0, s.cpus[i], s.stop);
    }
    FlaggedAll(s.cpus);
    if i :| 0 <= i < |s.cpus| && s.cpus[i].paused { SomeFlagged(s.cpus, i); }
    if s.pausedVcpus >= Max(Powered(s.cpus), 1) {
      forall i | 0 <= i < |s.cpus| ensures s.cpus[i].pc != Guest {
        assert Fits(i == 0, s.cpus[i], s.stop);
      }
    }
  }

  // Every vCPU is off without a start request or inside the pause loop.
  predicate Settled(c: Vcpu) {
    if c.power == Off then Down(c.pc) && !c.startRequested else c.pc == Spin || c.pc == SpinCommand
  }

  ghost predicate AllSettled(s: State) { forall i :: 0 <= i < |s.cpus| ==> Settled(s.cpus[i]) }

  // Whoever is about to lower its flag is the only vCPU that is not settled.
  ghost predicate PauseSafe(s: State) {
    forall j, k :: 0 <= j < |s.cpus| && 0 <= k < |s.cpus| && j != k && s.cpus[j].pc == Unflag ==> Settled(s.cpus[k])
  }

  predicate Kept(events: seq<Event>) { forall k :: 0 <= k < |events| && events[k].Order? ==> events[k].command == Pause }

  // Under a held Pause nobody leaves the pause loop any more, and a settled vCPU stays settled.
  lemma KeptMove(s: State, c: Vcpu)
    requires s.command == Pause && !s.stop
    ensures Own(s, c).pc != Unflag
    ensures Settled(c) ==> Settled(Own(s, c)) && c.pc != Loaded && c.pc != StoreRunning && c.pc != StoreStopping
                           && c.pc != Guest && c.pc != RequestStop
  {
  }

  lemma StepKept(s: State, e: Event)
    requires AllFit(s) && s.command == Pause && (e.Order? ==> e.command == Pause)
    requires Step(s, e).Some? && !Step(s, e).value.stop
    ensures var t := Step(s, e).value; !s.stop && t.command == Pause && |t.cpus| == |s.cpus|
    ensures PauseSafe(s) ==> PauseSafe(Step(s, e).value)
    ensures AllSettled(s) ==> AllSettled(Step(s, e).value)
    ensures AllSettled(s) && s.word == Paused ==> Step(s, e).value.word == Paused
  {
    hide StageOf, Powered, Max, Own, Settled, Fits, CpuOnResult, Request, Target;
    StillRunning(s, e);
    var t := Step(s, e).value;
    forall k | 0 <= k < |s.cpus| ensures Settled(s.cpus[k]) ==> s.cpus[k].pc != Guest { KeptMove(s, s.cpus[k]); }
    if e.Go? { KeptMove(s, s.cpus[e.cpu]); }
    if PauseSafe(s) { SafeStep(s, e); }
  }

  lemma SafeStep(s: State, e: Event)
    requires AllFit(s) && s.command == Pause && !s.stop && Step(s, e).Some? && !Step(s, e).value.stop && PauseSafe(s)
    ensures PauseSafe(Step(s, e).value)
  {
    hide StageOf, Powered, Max, Own, Settled, Fits;
    var t := Step(s, e).value;
    if e.Go? { KeptMove(s, s.cpus[e.cpu]); }
    forall j, k | 0 <= j < |t.cpus| && 0 <= k < |t.cpus| && j != k && t.cpus[j].pc == Unflag
      ensures Settled(t.cpus[k])
    {
      assert s.cpus[j].pc == Unflag;
      forall i | 0 <= i < |s.cpus| ensures s.cpus[i].pc != Guest { KeptMove(s, s.cpus[i]); }
    }
  }

  lemma {:induction false} KeptRun(s: State, events: seq<Event>)
    requires Good(s) && s.command == Pause && Kept(events)
    requires Exec(s, events).Some? && !Exec(s, events).value.stop
    ensures var t := Exec(s, events).value;
      && !s.stop && Good(t) && t.command == Pause && |t.cpus| == |s.cpus|
      && (PauseSafe(s) ==> PauseSafe(t)) && (AllSettled(s) ==> AllSettled(t))
      && (AllSettled(s) && s.word == Paused ==> t.word == Paused)
  {
    if events != [] {
      var e := events[|events| - 1];
      var m := Exec(s, events[..|events| - 1]).value;
      hide Fits, Own, StageOf, PauseSafe, AllSettled, Powered, Flagged;
      StillRunning(m, e);
      KeptRun(s, events[..|events| - 1]);
      StepFits(m, e);
      StepCount(m, e);
      StepKept(m, e);
    }
  }

  lemma StillRunning(s: State, e: Event)
    requires Step(s, e).Some? && !Step(s, e).value.stop
    ensures !s.stop && |Step(s, e).value.cpus| == |s.cpus|
  {
  }

  // vCPU i is about to raise its flag and store Paused.
  ghost predicate Stores(s: State, i: nat) {
    i < |s.cpus| && s.cpus[i].pc == Flag && Next(s, i).pausedVcpus >= Max(Powered(Next(s, i).cpus), 1)
  }

  // Pause is held from a safe state, for instance one with nobody about to lower its flag. Once a vCPU has
  // stored Paused, every vCPU stays off or in the pause loop, however CPUs were powered before, and the
  // state word stays Paused.
  lemma PausedStays(s: State, before: seq<Event>, i: nat, after: seq<Event>, t: State)
    requires Good(s) && s.command == Pause && PauseSafe(s)
    requires Kept(before) && Kept(after) && Exec(s, before).Some? && Stores(Exec(s, before).value, i)
    requires Exec(Next(Exec(s, before).value, i), after) == Some(t) && !t.stop
    ensures AllSettled(t) && t.word == Paused
  {
    var m := Exec(s, before).value;
    var n := Next(m, i);
    Unstopped(n, after);
    hide Exec, StageOf, Own, Powered, Flagged;
    assert Step(m, Go(i)) == Some(n);
    StillRunning(m, Go(i));
    KeptRun(s, before);
    StepFits(m, Go(i));
    StepCount(m, Go(i));
    StoreLeavesNone(m, i);
    PausedSettles(n, i);
    KeptRun(n, after);
  }

  lemma StoreLeavesNone(s: State, i: nat)
    requires Good(s) && PauseSafe(s) && s.command == Pause && !s.stop && i < |s.cpus| && s.cpus[i].pc == Flag
    ensures forall j :: 0 <= j < |s.cpus| ==> Next(s, i).cpus[j].pc != Unflag
  {
    hide StageOf, Powered, Flagged, Max;
    assert Fits(i == 0, s.cpus[i], s.stop);
  }

  lemma PausedSettles(s: State, i: nat)
    requires Good(s) && !s.stop && i < |s.cpus| && s.pausedVcpus >= Max(Powered(s.cpus), 1)
    requires forall j :: 0 <= j < |s.cpus| ==> s.cpus[j].pc != Unflag
    ensures AllSettled(s)
  {
    hide StageOf, Powered, Flagged;
    FlaggedIffAll(s);
    FlaggedAll(s.cpus);
    forall j | 0 <= j < |s.cpus| ensures Settled(s.cpus[j]) {
      assert Fits(j == 0, s.cpus[j], s.stop);
    }
  }

  lemma {:induction false} Unstopped(s: State, events: seq<Event>)
    requires Exec(s, events).Some? && !Exec(s, events).value.stop
    ensures !s.stop
  {
    if events != [] { Unstopped(s, events[..|events| - 1]); }
  }

  // ---- Exactly when a held pause can go wrong ----

  // Under the held pause a vCPU stores Paused, and later, before any stop, some vCPU is in the guest.
  ghost predicate Breaks(s: State, before: seq<Event>, i: nat, after: seq<Event>) {
    && Kept(before) && Kept(after) && Exec(s, before).Some? && Stores(Exec(s, before).value, i)
    && var r := Exec(Next(Exec(s, before).value, i), after);
       r.Some? && !r.value.stop && exists g :: 0 <= g < |r.value.cpus| && r.value.cpus[g].pc == Guest
  }

  // Nobody is about to stop the machine.
  ghost predicate NoStop(s: State) {
    !s.stop && forall i :: 0 <= i < |s.cpus| ==> s.cpus[i].pc != StoreStopping && s.cpus[i].pc != RequestStop
  }

  // How many of its own steps a vCPU is from raising its flag while Pause is held.
  function Distance(pc: Pc): nat {
    match pc
    case Unflag => 7 case AfterPause => 6 case StoreRunning => 5 case Guest => 4
    case OffCheck => 6 case Resting => 5 case Asleep => 5 case Loaded => 4
    case Head => 3 case ReadOrder => 2 case AskPause => 1 case _ => 0
  }

  // It can get there on its own.
  predicate Movable(c: Vcpu) {
    Distance(c.pc) <= 7 && (c.pc == Flag || Distance(c.pc) > 0) && (Down(c.pc) ==> c.startRequested)
  }

  lemma UnsettledMoves(boot: bool, c: Vcpu)
    requires Fits(boot, c, false) && !Settled(c) && c.pc != StoreStopping && c.pc != RequestStop
    ensures Movable(c)
  {
    hide StageOf;
  }

  lemma OwnApproaches(s: State, c: Vcpu)
    requires s.command == Pause && !s.stop && Movable(c) && c.pc != Flag
    ensures Movable(Own(s, c)) && Distance(Own(s, c).pc) < Distance(c.pc)
    ensures Distance(c.pc) > 4 && !Down(c.pc) ==> Distance(Own(s, c).pc) >= 4 && !Down(Own(s, c).pc)
                                                  && Own(s, c).pc != Loaded
  {
  }

  // A vCPU that can raise its flag runs there on its own; one that is lowering it passes through the guest.
  lemma {:induction false} Drive(s: State, i: nat, goal: Pc) returns (events: seq<Event>, t: State)
    requires Good(s) && s.command == Pause && NoStop(s) && i < |s.cpus| && Movable(s.cpus[i])
    requires goal == Flag
          || (goal == Guest && Distance(s.cpus[i].pc) >= 4 && !Down(s.cpus[i].pc) && s.cpus[i].pc != Loaded)
    ensures Kept(events) && Exec(s, events) == Some(t) && Good(t) && t.command == Pause && NoStop(t)
    ensures i < |t.cpus| && t.cpus[i].pc == goal && t.cpus == s.cpus[i := t.cpus[i]]
    decreases Distance(s.cpus[i].pc)
  {
    hide Own, Good, Movable, NoStop, Exec, Next;
    if s.cpus[i].pc == goal {
      events, t := [], s;
      NoEvents(s);
    } else {
      var n := Next(s, i);
      Approach(s, i);
      OneStep(s, Go(i));
      var rest;
      rest, t := Drive(n, i, goal);
      events := [Go(i)] + rest;
      ExecConcat(s, [Go(i)], rest);
    }
  }

  lemma Approach(s: State, i: nat)
    requires Good(s) && s.command == Pause && NoStop(s) && i < |s.cpus| && Movable(s.cpus[i]) && s.cpus[i].pc != Flag
    ensures var n := Next(s, i);
      && Good(n) && n.command == Pause && NoStop(n) && n.cpus == s.cpus[i := n.cpus[i]]
      && Movable(n.cpus[i]) && Distance(n.cpus[i].pc) < Distance(s.cpus[i].pc)
      && (Distance(s.cpus[i].pc) > 4 && !Down(s.cpus[i].pc) ==>
            Distance(n.cpus[i].pc) >= 4 && !Down(n.cpus[i].pc) && n.cpus[i].pc != Loaded)
  {
    hide Own, StageOf, Fits, Powered, Flagged, Max, Movable, Distance, Down;
    OwnApproaches(s, s.cpus[i]);
    StepFits(s, Go(i));
    StepCount(s, Go(i));
    StillNoStop(s, i);
  }

  lemma StillNoStop(s: State, i: nat)
    requires s.command == Pause && NoStop(s) && i < |s.cpus|
    ensures NoStop(Next(s, i)) && Next(s, i).command == Pause
  {
    hide Powered, Flagged, Max;
  }

  lemma {:induction false} ExecConcat(s: State, xs: seq<Event>, ys: seq<Event>)
    requires Exec(s, xs).Some?
    ensures Exec(s, xs + ys) == Exec(Exec(s, xs).value, ys)
  {
    if ys == [] {
      assert xs + ys == xs;
    } else {
      assert (xs + ys)[..|xs + ys| - 1] == xs + ys[..|ys| - 1];
      ExecConcat(s, xs, ys[..|ys| - 1]);
    }
  }

  // The vCPU's flag is up, or its slot is not counted.
  predicate Ready(c: Vcpu) { c.paused || c.power == Off }

  // One vCPU raises its flag.
  lemma Raise(s: State, i: nat) returns (events: seq<Event>, t: State)
    requires Good(s) && s.command == Pause && NoStop(s) && i < |s.cpus| && !Ready(s.cpus[i])
    ensures Kept(events) && Exec(s, events) == Some(t) && Good(t) && t.command == Pause && NoStop(t)
    ensures i < |t.cpus| && Ready(t.cpus[i]) && t.cpus == s.cpus[i := t.cpus[i]]
  {
    hide Own, StageOf, Exec, Powered, Flagged, Max;
    assert Movable(s.cpus[i]) by { NotReadyMoves(i == 0, s.cpus[i]); }
    var m;
    events, m := Drive(s, i, Flag);
    t := Next(m, i);
    StepFits(m, Go(i));
    StepCount(m, Go(i));
    StillNoStop(m, i);
    FlagRaised(m, m.cpus[i]);
    ExecConcat(s, events, [Go(i)]);
    assert Exec(m, [Go(i)]) == Some(t) by { OneStep(m, Go(i)); }
    events := events + [Go(i)];
  }

  lemma OneStep(s: State, e: Event)
    ensures Exec(s, [e]) == Step(s, e)
  {
    assert [e][..0] == [];
  }

  lemma FlagRaised(s: State, c: Vcpu)
    requires c.pc == Flag
    ensures Own(s, c).paused
  {
  }

  lemma NotReadyMoves(boot: bool, c: Vcpu)
    requires Fits(boot, c, false) && !Ready(c) && c.pc != StoreStopping && c.pc != RequestStop
    ensures Movable(c)
  {
    hide StageOf;
  }

  // Everyone but j and k raises its flag or is not counted; j and k stay where they are.
  lemma {:induction false} Gather(s: State, j: nat, k: nat, n: nat) returns (events: seq<Event>, t: State)
    requires Good(s) && s.command == Pause && NoStop(s) && j < |s.cpus| && k < |s.cpus| && n <= |s.cpus|
    requires forall i :: 0 <= i < n && i != j && i != k ==> Ready(s.cpus[i])
    ensures Kept(events) && Exec(s, events) == Some(t) && Good(t) && t.command == Pause && NoStop(t)
    ensures |t.cpus| == |s.cpus| && t.cpus[j] == s.cpus[j] && t.cpus[k] == s.cpus[k]
    ensures forall i :: 0 <= i < |s.cpus| && i != j && i != k ==> Ready(t.cpus[i])
    decreases |s.cpus| - n
  {
    hide Exec, Good, NoStop, Ready;
    if n == |s.cpus| {
      events, t := [], s;
      assert Exec(s, []) == Some(s) by { NoEvents(s); }
    } else if n == j || n == k || Ready(s.cpus[n]) {
      events, t := Gather(s, j, k, n + 1);
    } else {
      var first, m := Raise(s, n);
      var rest;
      rest, t := Gather(m, j, k, n + 1);
      events := first + rest;
      ExecConcat(s, first, rest);
    }
  }

  lemma NoEvents(s: State)
    ensures Exec(s, []) == Some(s)
  {
  }

  // With everyone else ready, the flag of the last one completes the count.
  lemma LastStores(s: State, k: nat)
    requires Good(s) && k < |s.cpus| && s.cpus[k].pc == Flag
    requires forall i :: 0 <= i < |s.cpus| && i != k ==> Ready(s.cpus[i])
    ensures Stores(s, k) && Good(Next(s, k))
  {
    hide StageOf, Own, Powered, Flagged;
    StepFits(s, Go(k));
    StepCount(s, Go(k));
    FlagRaised(s, s.cpus[k]);
    var t := Next(s, k);
    FlaggedIffAll(t);
    assert t.cpus[k].paused;
  }

  // vCPU j is about to lower its flag while k is not settled: the others and then k raise theirs, which
  // stores Paused, and j goes on into the guest.
  lemma LeaverBreaks(s: State, j: nat, k: nat)
    requires Good(s) && s.command == Pause && NoStop(s) && j < |s.cpus| && k < |s.cpus| && j != k
    requires s.cpus[j].pc == Unflag && !Settled(s.cpus[k])
    ensures exists before, i, after :: Breaks(s, before, i, after)
  {
    hide Exec, StageOf, Own, Powered, Flagged, Next, Max, Good;
    var xs, m := Gather(s, j, k, 0);
    UnflagReady(s, j);
    assert Movable(s.cpus[k]) by { UnsettledMovesIn(s, k); }
    var ys, n := Drive(m, k, Flag);
    ExecConcat(s, xs, ys);
    LastStores(n, k);
    StillNoStop(n, k);
    OthersKept(n, k, j);
    var zs, t := Drive(Next(n, k), j, Guest);
    assert Kept(xs + ys);
    assert Breaks(s, xs + ys, k, zs);
  }

  lemma UnflagReady(s: State, j: nat)
    requires Good(s) && j < |s.cpus| && s.cpus[j].pc == Unflag
    ensures Ready(s.cpus[j]) && Movable(s.cpus[j])
  {
    hide StageOf;
    assert Fits(j == 0, s.cpus[j], s.stop);
  }

  lemma UnsettledMovesIn(s: State, k: nat)
    requires Good(s) && NoStop(s) && k < |s.cpus| && !Settled(s.cpus[k])
    ensures Movable(s.cpus[k])
  {
    UnsettledMoves(k == 0, s.cpus[k]);
  }

  lemma OthersKept(s: State, k: nat, j: nat)
    requires k < |s.cpus| && j < |s.cpus| && j != k
    ensures |Next(s, k).cpus| == |s.cpus| && Next(s, k).cpus[j] == s.cpus[j]
  {
  }

  // A held pause is safe exactly when whoever is about to lower its flag is the only vCPU not settled.
  lemma SafeIff(s: State)
    requires Good(s) && s.command == Pause && NoStop(s)
    ensures PauseSafe(s) <==> !exists before, i, after :: Breaks(s, before, i, after)
  {
    hide Exec, StageOf, Own, Powered, Flagged, Next, Max, Good, Settled;
    if !PauseSafe(s) {
      var j, k :| 0 <= j < |s.cpus| && 0 <= k < |s.cpus| && j != k && s.cpus[j].pc == Unflag && !Settled(s.cpus[k]);
      LeaverBreaks(s, j, k);
    } else if before, i, after :| Breaks(s, before, i, after) {
      var t := Exec(Next(Exec(s, before).value, i), after).value;
      PausedStays(s, before, i, after, t);
      var g :| 0 <= g < |t.cpus| && t.cpus[g].pc == Guest;
      SettledOutside(t.cpus[g]);
      assert false;
    }
  }

  // A held pause can always be completed: if vCPU k is not settled, the others and then k can raise their flags,
  // and k stores Paused.
  lemma PauseCompletes(s: State, k: nat) returns (events: seq<Event>, t: State)
    requires Good(s) && s.command == Pause && NoStop(s) && k < |s.cpus| && !Settled(s.cpus[k])
    ensures Kept(events) && Exec(s, events) == Some(t) && !t.stop && t.word == Paused
    ensures PauseSafe(s) ==> AllSettled(t)
  {
    hide Exec, StageOf, Own, Powered, Flagged, Max, Good, Settled, PauseSafe, AllSettled;
    var xs, m := Gather(s, k, k, 0);
    assert Movable(m.cpus[k]) by { UnsettledMovesIn(s, k); }
    var ys, n := Drive(m, k, Flag);
    ExecConcat(s, xs, ys);
    LastStores(n, k);
    OneStep(n, Go(k));
    ExecConcat(s, xs + ys, [Go(k)]);
    events, t := xs + ys + [Go(k)], Next(n, k);
    if PauseSafe(s) {
      NoEvents(t);
      PausedStays(s, xs + ys, k, [], t);
    }
  }

  // How many of its own steps a paused vCPU is from the guest once the command is Run.
  function Way(pc: Pc): nat {
    match pc
    case Spin => 5 case SpinCommand => 4 case Unflag => 3 case AfterPause => 2 case StoreRunning => 1 case _ => 0
  }

  // And it can always be left: a paused vCPU can lower its flag, store Running and go on into the guest.
  lemma {:induction false} Resumes(s: State, i: nat) returns (events: seq<Event>, t: State)
    requires s.command == Run && !s.stop && i < |s.cpus| && Way(s.cpus[i].pc) > 0
    ensures Exec(s, events) == Some(t) && i < |t.cpus| && t.cpus == s.cpus[i := t.cpus[i]] && !t.stop
    ensures t.cpus[i].pc == Guest && t.word == Running && t.cpus[i].paused == (s.cpus[i].paused && Way(s.cpus[i].pc) < 3)
    decreases Way(s.cpus[i].pc)
  {
    hide Exec, Powered, Max;
    var n := Next(s, i);
    OneStep(s, Go(i));
    if s.cpus[i].pc == StoreRunning {
      events, t := [Go(i)], n;
    } else {
      var rest;
      rest, t := Resumes(n, i);
      ExecConcat(s, [Go(i)], rest);
      events := [Go(i)] + rest;
    }
  }

  lemma SettledOutside(c: Vcpu)
    requires Settled(c)
    ensures c.pc != Guest
  {
  }
}
