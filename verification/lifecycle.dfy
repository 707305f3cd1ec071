/** The application manager: modules are brought up in order and torn down in reverse, with rollback
    when one fails and a faulted state when a cleanup fails. */
module Lifecycle {
  const MAX_MODULES := 8

  datatype ModuleState = Stopped | Initialized | CleanupFailed

  datatype Phase = Configuring | Running | Faulted

  /** A hook of module `index` was called and answered. */
  datatype Call = Up(index: nat, ok: bool) | Down(index: nat, ok: bool)

  datatype RegistrationStatus = Registered | NullModule | DuplicateName | RegistryFull | InvalidState
  datatype LifecycleStatus = Ok | WrongState | ModuleFailed | RollbackFailed

  /** The modules in order of registration, and every hook call so far. */
  datatype System = System(names: seq<string>, states: seq<ModuleState>, phase: Phase, log: seq<Call>) {
    predicate Valid() {
      |names| == |states| <= MAX_MODULES
    }
  }

  type ValidSystem = s: System | s.Valid() witness System([], [], Configuring, [])

  /** What the hooks answer, by the number of calls made before. */
  type Answers = nat -> bool

  // ----- one module

  function InitModule(state: ModuleState, index: nat, log: seq<Call>, answers: Answers)
    : (ModuleState, bool, seq<Call>)
  {
    match state
    case Initialized => (Initialized, true, log)
    case CleanupFailed => (CleanupFailed, false, log)
    case Stopped =>
      if answers(|log|) then (Initialized, true, log + [Up(index, true)])
      else
        var tried := log + [Up(index, false)];
        var cleaned := answers(|tried|);
        (if cleaned then Stopped else CleanupFailed, false, tried + [Down(index, cleaned)])
  }

  function DeinitModule(state: ModuleState, index: nat, log: seq<Call>, answers: Answers)
    : (ModuleState, bool, seq<Call>)
  {
    if state == Stopped then (Stopped, true, log)
    else
      var cleaned := answers(|log|);
      (if cleaned then Stopped else CleanupFailed, cleaned, log + [Down(index, cleaned)])
  }

  // ----- all modules

  function InitOne(s: ValidSystem, i: nat, answers: Answers): (r: (ValidSystem, bool))
    requires i < |s.states|
    ensures r.0.names == s.names && r.0.phase == s.phase
  {
    var (state, ok, log) := InitModule(s.states[i], i, s.log, answers);
    (s.(states := s.states[i := state], log := log), ok)
  }

  function DeinitOne(s: ValidSystem, i: nat, answers: Answers): (r: (ValidSystem, bool))
    requires i < |s.states|
    ensures r.0.names == s.names && r.0.phase == s.phase
  {
    var (state, ok, log) := DeinitModule(s.states[i], i, s.log, answers);
    (s.(states := s.states[i := state], log := log), ok)
  }

  function Rollback(s: ValidSystem, n: nat, answers: Answers): (r: (ValidSystem, LifecycleStatus))
    requires n <= |s.states|
    ensures r.0.names == s.names
    decreases n
  {
    if n == 0 then (s, ModuleFailed)
    else
      var (s', ok) := DeinitOne(s, n - 1, answers);
      if ok then Rollback(s', n - 1, answers) else (s'.(phase := Faulted), RollbackFailed)
  }

  function InitFrom(s: ValidSystem, i: nat, answers: Answers): (r: (ValidSystem, LifecycleStatus))
    requires i <= |s.states|
    ensures r.0.names == s.names
    decreases |s.states| - i
  {
    if i == |s.states| then (s.(phase := Running), Ok)
    else
      var (s', ok) := InitOne(s, i, answers);
      if ok then InitFrom(s', i + 1, answers)
      else if s'.states[i] == CleanupFailed then (s'.(phase := Faulted), RollbackFailed)
      else Rollback(s', i, answers)
  }

  function DeinitFrom(s: ValidSystem, remaining: nat, answers: Answers): (r: (ValidSystem, LifecycleStatus))
    requires remaining <= |s.states|
    ensures r.0.names == s.names
    decreases remaining
  {
    if remaining == 0 then (s.(phase := Configuring), Ok)
    else
      var (s', ok) := DeinitOne(s, remaining - 1, answers);
      if ok then DeinitFrom(s', remaining - 1, answers) else (s'.(phase := Faulted), ModuleFailed)
  }

  function BroughtUp(s: ValidSystem, answers: Answers): (r: (ValidSystem, LifecycleStatus))
    ensures r.0.names == s.names
  {
    match s.phase
    case Running => (s, Ok)
    case Faulted => (s, WrongState)
    case Configuring => InitFrom(s, 0, answers)
  }

  function TornDown(s: ValidSystem, answers: Answers): (r: (ValidSystem, LifecycleStatus))
    ensures r.0.names == s.names
  {
    if s.phase == Configuring then (s, Ok) else DeinitFrom(s, |s.states|, answers)
  }

  /** A module may come in any state; a missing one has no name. */
  datatype Candidate = Missing | Module(name: string, state: ModuleState)

  function Register(s: ValidSystem, candidate: Candidate): (ValidSystem, RegistrationStatus) {
    if s.phase != Configuring then (s, InvalidState)
    else if candidate.Missing? then (s, NullModule)
    else if |s.states| >= MAX_MODULES then (s, RegistryFull)
    else if candidate.name in s.names then (s, DuplicateName)
    else (s.(names := s.names + [candidate.name], states := s.states + [candidate.state]), Registered)
  }

  // ----- the invariant

  /** The lowest `up` modules are initialised; with `dirty` the next one still needs its cleanup. */
  datatype Level = Level(up: nat, dirty: bool)

  predicate AtLevel(states: seq<ModuleState>, level: Level) {
    && level.up + (if level.dirty then 1 else 0) <= |states|
    && (forall i :: 0 <= i < level.up ==> states[i] == Initialized)
    && (level.dirty ==> states[level.up] == CleanupFailed)
    && (forall i :: level.up + (if level.dirty then 1 else 0) <= i < |states| ==> states[i] == Stopped)
  }

  /** Configuring means all stopped, running all initialised, faulted one uncleaned module with
      initialised ones below and stopped ones above. */
  predicate InPhase(s: System, level: Level) {
    && AtLevel(s.states, level)
    && match s.phase
       case Configuring => level == Level(0, false)
       case Running => level == Level(|s.states|, false)
       case Faulted => level.dirty
  }

  /** The levels a hook call leads to: only the module on top of the stack is ever cleaned up, only
      the one just above is ever brought up, and nothing while a cleanup is owed. */
  function Replay(level: Level, call: Call): (next: Level)
  {
    match call
    case Up(_, ok) => if ok then Level(level.up + 1, false) else Level(level.up, true)
    case Down(index, ok) => Level(index, !ok)
  }

  predicate Nested(level: Level, call: Call) {
    match call
    case Up(index, _) => !level.dirty && index == level.up
    case Down(index, _) => if level.dirty then index == level.up else index + 1 == level.up
  }

  function ReplayAll(log: seq<Call>): Level
    decreases |log|
  {
    if log == [] then Level(0, false) else Replay(ReplayAll(log[..|log| - 1]), log[|log| - 1])
  }

  /** Stack discipline of a whole log. */
  predicate NestedAll(log: seq<Call>)
    decreases |log|
  {
    log == [] || (NestedAll(log[..|log| - 1]) && Nested(ReplayAll(log[..|log| - 1]), log[|log| - 1]))
  }

  /** The log so far is nested, and replaying it gives the states. */
  predicate Tracked(s: System) {
    NestedAll(s.log) && AtLevel(s.states, ReplayAll(s.log))
  }

  predicate Inv(s: System) {
    s.Valid() && Tracked(s) && InPhase(s, ReplayAll(s.log))
  }

  lemma OneCall(log: seq<Call>, call: Call)
    ensures ReplayAll(log + [call]) == Replay(ReplayAll(log), call)
    ensures NestedAll(log + [call]) <==> NestedAll(log) && Nested(ReplayAll(log), call)
  {
    assert (log + [call])[..|log|] == log;
  }

  /** Tearing one module down. */
  lemma DeinitTracked(s: ValidSystem, n: nat, answers: Answers)
    requires Tracked(s) && n < |s.states| && s.states[n] != Stopped
    requires n + 1 == |s.states| || s.states[n + 1] == Stopped
    ensures var (s', ok) := DeinitOne(s, n, answers);
      Tracked(s') && ReplayAll(s'.log) == Level(n, !ok)
  {
    hide ReplayAll, NestedAll;
    OneCall(s.log, Down(n, answers(|s.log|)));
  }

  lemma {:induction false} RollbackKeepsInv(s: ValidSystem, n: nat, answers: Answers)
    requires s.phase == Configuring && Tracked(s) && n <= |s.states| && ReplayAll(s.log) == Level(n, false)
    ensures Inv(Rollback(s, n, answers).0)
    ensures Rollback(s, n, answers).0.phase != Running
    ensures Rollback(s, n, answers).1 == if Rollback(s, n, answers).0.phase == Faulted then RollbackFailed
        else ModuleFailed
    decreases n
  {
    hide ReplayAll, NestedAll;
    if n == 0 {
    } else {
      DeinitTracked(s, n - 1, answers);
      var (s', ok) := DeinitOne(s, n - 1, answers);
      if ok {
        RollbackKeepsInv(s', n - 1, answers);
      }
    }
  }

  lemma InitTracked(s: ValidSystem, i: nat, answers: Answers)
    requires Tracked(s) && i < |s.states| && ReplayAll(s.log) == Level(i, false)
    ensures var (s', ok) := InitOne(s, i, answers);
      && Tracked(s')
      && ReplayAll(s'.log) == (if ok then Level(i + 1, false) else Level(i, s'.states[i] == CleanupFailed))
      && (ok <==> s'.states[i] == Initialized)
  {
    hide ReplayAll, NestedAll;
    var ok := answers(|s.log|);
    OneCall(s.log, Up(i, ok));
    if !ok {
      OneCall(s.log + [Up(i, ok)], Down(i, answers(|s.log| + 1)));
    }
  }

  lemma {:induction false} InitFromKeepsInv(s: ValidSystem, i: nat, answers: Answers)
    requires s.phase == Configuring && Tracked(s) && i <= |s.states| && ReplayAll(s.log) == Level(i, false)
    ensures Inv(InitFrom(s, i, answers).0)
    ensures var (s', status) := InitFrom(s, i, answers);
      status == match s'.phase case Running => Ok case Configuring => ModuleFailed case Faulted => RollbackFailed
    decreases |s.states| - i
  {
    hide ReplayAll, NestedAll;
    if i < |s.states| {
      InitTracked(s, i, answers);
      var (s', ok) := InitOne(s, i, answers);
      if ok {
        InitFromKeepsInv(s', i + 1, answers);
      } else if s'.states[i] != CleanupFailed {
        RollbackKeepsInv(s', i, answers);
      }
    }
  }

  lemma {:induction false} DeinitFromKeepsInv(s: ValidSystem, remaining: nat, answers: Answers)
    requires Tracked(s) && remaining <= |s.states| && forall i :: remaining <= i < |s.states| ==> s.states[i] == Stopped
    ensures Inv(DeinitFrom(s, remaining, answers).0) && DeinitFrom(s, remaining, answers).0.phase != Running
    ensures var (s', status) := DeinitFrom(s, remaining, answers);
      status == match s'.phase case Configuring => Ok case _ => ModuleFailed
    decreases remaining
  {
    hide ReplayAll, NestedAll;
    if remaining > 0 {
      var n := remaining - 1;
      if s.states[n] != Stopped {
        DeinitTracked(s, n, answers);
      }
      var (s', ok) := DeinitOne(s, n, answers);
      if ok {
        DeinitFromKeepsInv(s', n, answers);
      }
    } else {
      AllStopped(s.states, ReplayAll(s.log));
    }
  }

  lemma AllStopped(states: seq<ModuleState>, level: Level)
    requires AtLevel(states, level) && forall i :: 0 <= i < |states| ==> states[i] == Stopped
    ensures level == Level(0, false)
  {
    assert |states| > 0 ==> states[0] == Stopped;
  }

  // ----- every history

  datatype Operation = Add(candidate: Candidate) | BringUp | TearDown

  function Apply(s: ValidSystem, operation: Operation, answers: Answers): ValidSystem {
    match operation
    case Add(candidate) => Register(s, candidate).0
    case BringUp => BroughtUp(s, answers).0
    case TearDown => TornDown(s, answers).0
  }

  /** Registration keeps the invariant exactly if it is refused or the module comes stopped: nothing
      in it looks at the state of the module. */
  lemma RegisterKeepsInvExactly(s: ValidSystem, candidate: Candidate)
    requires Inv(s)
    ensures var (s', status) := Register(s, candidate);
      Inv(s') <==> status != Registered || candidate.state == Stopped
  {
    hide ReplayAll, NestedAll;
    var (s', status) := Register(s, candidate);
    if status == Registered {
      assert s'.states[|s.states|] == candidate.state;
    }
  }

  /** A module registered while initialised leaves the manager configuring with a module up. */
  lemma InitialisedBeforeRegistration()
    ensures var s: ValidSystem := System([], [], Configuring, []);
      var s' := Register(s, Module("radio", Initialized)).0;
      Inv(s) && s'.phase == Configuring && s'.states == [Initialized] && !Inv(s')
  {
    var s: ValidSystem := System([], [], Configuring, []);
    RegisterKeepsInvExactly(s, Module("radio", Initialized));
  }

  lemma ApplyKeepsInv(s: ValidSystem, operation: Operation, answers: Answers)
    requires Inv(s) && (operation.Add? && operation.candidate.Module? ==> operation.candidate.state == Stopped)
    ensures Inv(Apply(s, operation, answers))
  {
    hide ReplayAll, NestedAll;
    match operation
    case Add(candidate) => RegisterKeepsInvExactly(s, candidate);
    case BringUp =>
      if s.phase == Configuring {
        InitFromKeepsInv(s, 0, answers);
      }
    case TearDown =>
      if s.phase != Configuring {
        DeinitFromKeepsInv(s, |s.states|, answers);
      }
  }

  function Run(s: ValidSystem, operations: seq<Operation>, answers: Answers): ValidSystem
    decreases |operations|
  {
    if operations == [] then s else Run(Apply(s, operations[0], answers), operations[1..], answers)
  }

  /** For every history of registrations of stopped modules, bring-ups and tear-downs, whatever the
      hooks answer: the states are those of the phase, and hooks have been called last in, first out. */
  lemma {:induction false} StackDiscipline(s: ValidSystem, operations: seq<Operation>, answers: Answers)
    requires Inv(s)
    requires forall i :: 0 <= i < |operations| && operations[i].Add? && operations[i].candidate.Module? ==>
               operations[i].candidate.state == Stopped
    ensures Inv(Run(s, operations, answers))
    decreases |operations|
  {
    hide Inv, Apply;
    if operations == [] {
    } else {
      ApplyKeepsInv(s, operations[0], answers);
      StackDiscipline(Apply(s, operations[0], answers), operations[1..], answers);
    }
  }

  /** A registration succeeds exactly while configuring, for a module there is, with room, under a new name;
      the first of these that fails is reported. */
  lemma RegisteredExactly(s: ValidSystem, candidate: Candidate)
    ensures var (s', status) := Register(s, candidate);
      && (status == Registered <==>
            && s.phase == Configuring && candidate.Module? && |s.states| < 8
            && forall i :: 0 <= i < |s.names| ==> s.names[i] != candidate.name)
      && (status == InvalidState <==> s.phase != Configuring)
      && (status == NullModule <==> s.phase == Configuring && candidate.Missing?)
      && (status == RegistryFull <==> s.phase == Configuring && candidate.Module? && |s.states| == 8)
      && (status != Registered ==> s' == s)
      && (status == Registered ==>
            && |s'.states| == |s.states| + 1 == |s'.names| && s'.phase == s.phase && s'.log == s.log
            && s'.names[|s.names|] == candidate.name && s'.states[|s.states|] == candidate.state
            && forall i :: 0 <= i < |s.states| ==> s'.names[i] == s.names[i] && s'.states[i] == s.states[i])
  {
  }

  /** Over every history no name is registered twice, and names once registered stay. */
  lemma {:induction false} NamesStayDistinct(s: ValidSystem, operations: seq<Operation>, answers: Answers)
    requires forall i, j :: 0 <= i < j < |s.names| ==> s.names[i] != s.names[j]
    ensures var s' := Run(s, operations, answers);
      s.names <= s'.names && forall i, j :: 0 <= i < j < |s'.names| ==> s'.names[i] != s'.names[j]
    decreases |operations|
  {
    hide InitFrom, DeinitFrom;
    if operations == [] {
    } else {
      NamesStayDistinct(Apply(s, operations[0], answers), operations[1..], answers);
    }
  }

  /** What the callers are told: a tear-down succeeds exactly when everything is stopped, a bring-up
      exactly when everything is initialised; a failed bring-up leaves nothing up or one module
      uncleaned. */
  lemma StatusTellsPhase(s: ValidSystem, answers: Answers)
    requires Inv(s)
    ensures var (s', status) := BroughtUp(s, answers);
      && (status == Ok <==> s'.phase == Running)
      && (status == ModuleFailed ==> s'.phase == Configuring)
      && (status == WrongState <==> s.phase == Faulted) && (s.phase == Faulted ==> s' == s)
      && (status == RollbackFailed <==> s.phase == Configuring && s'.phase == Faulted)
      && (s.phase == Running ==> s' == s)
    ensures var (s', status) := TornDown(s, answers);
      && (status == Ok <==> s'.phase == Configuring) && (status != Ok ==> status == ModuleFailed && s'.phase == Faulted)
  {
    hide ReplayAll, NestedAll;
    if s.phase == Configuring {
      InitFromKeepsInv(s, 0, answers);
    } else {
      DeinitFromKeepsInv(s, |s.states|, answers);
    }
  }

  lemma StoppedIsSkipped(s: ValidSystem, i: nat, answers: Answers)
    requires i < |s.states| && s.states[i] == Stopped
    ensures DeinitOne(s, i, answers) == (s, true)
  {
    assert s.states[i := Stopped] == s.states;
  }

  // ----- the classes

  class AppModule {
    const name: string
    var state: ModuleState

    constructor (name: string)
      ensures this.name == name && state == Stopped
    {
      this.name, state := name, Stopped;
    }

    /** `log` lists the hook calls made before; it is returned with the calls made here. */
    method Initialize(index: nat, log: seq<Call>, answers: Answers) returns (ok: bool, log': seq<Call>)
      modifies this
      ensures (state, ok, log') == InitModule(old(state), index, log, answers)
    {
      if state == Initialized {
        return true, log;
      }
      if state == CleanupFailed {
        return false, log;
      }
      if answers(|log|) {
        state := Initialized;
        return true, log + [Up(index, true)];
      }
      log' := log + [Up(index, false)];
      var cleaned := answers(|log'|);
      state := if cleaned then Stopped else CleanupFailed;
      return false, log' + [Down(index, cleaned)];
    }

    method Deinitialize(index: nat, log: seq<Call>, answers: Answers) returns (ok: bool, log': seq<Call>)
      modifies this
      ensures (state, ok, log') == DeinitModule(old(state), index, log, answers)
    {
      if state == Stopped {
        return true, log;
      }
      ok := answers(|log|);
      state := if ok then Stopped else CleanupFailed;
      log' := log + [Down(index, ok)];
    }
  }

  class AppManager {
    var modules: seq<AppModule>
    var phase: Phase
    var log: seq<Call>

    /** The manager owns its modules, each once. */
    ghost predicate Valid()
      reads this
    {
      |modules| <= MAX_MODULES && forall i, j :: 0 <= i < j < |modules| ==> modules[i] != modules[j]
    }

    ghost function Names(): (r: seq<string>)
      ensures |r| == |modules|
      reads this
    {
      seq(|modules|, i requires 0 <= i < |modules| reads this => modules[i].name)
    }

    ghost function States(): (r: seq<ModuleState>)
      ensures |r| == |modules| && forall i :: 0 <= i < |r| ==> r[i] == modules[i].state
      reads this, modules
    {
      seq(|modules|, i requires 0 <= i < |modules| reads this, modules => modules[i].state)
    }

    ghost function Model(): ValidSystem
      requires Valid()
      reads this, modules
    {
      System(Names(), States(), phase, log)
    }

    constructor ()
      ensures Valid() && Model() == System([], [], Configuring, [])
    {
      modules, phase, log := [], Configuring, [];
    }

    method RegisterModule(candidate: AppModule?) returns (status: RegistrationStatus)
      requires Valid() && candidate !in modules
      modifies this`modules
      ensures Valid()
      ensures var candidate := if candidate == null then Missing else Module(candidate.name, candidate.state);
        (Model(), status) == Register(old(Model()), candidate)
    {
      if phase != Configuring {
        return InvalidState;
      }
      if candidate == null {
        return NullModule;
      }
      if |modules| >= MAX_MODULES {
        return RegistryFull;
      }
      for index := 0 to |modules|
        invariant forall i :: 0 <= i < index ==> modules[i].name != candidate.name
      {
        if modules[index].name == candidate.name {
          assert Names()[index] == candidate.name;
          return DuplicateName;
        }
      }
      assert candidate.name !in Names();
      modules := modules + [candidate];
      assert Names() == old(Names()) + [candidate.name] && States() == old(States()) + [candidate.state];
      return Registered;
    }

    /** Brings module `index` up. */
    method InitializeOne(index: nat, answers: Answers) returns (ok: bool)
      requires Valid() && index < |modules|
      modifies this`log, modules[index]
      ensures Valid() && (Model(), ok) == InitOne(old(Model()), index, answers)
    {
      ok, log := modules[index].Initialize(index, log, answers);
      assert Names() == old(Names()) && States() == old(States())[index := modules[index].state];
    }

    method DeinitializeOne(index: nat, answers: Answers) returns (ok: bool)
      requires Valid() && index < |modules|
      modifies this`log, modules[index]
      ensures Valid() && (Model(), ok) == DeinitOne(old(Model()), index, answers)
    {
      ok, log := modules[index].Deinitialize(index, log, answers);
      assert Names() == old(Names()) && States() == old(States())[index := modules[index].state];
    }

    method Enter(next: Phase)
      requires Valid()
      modifies this`phase
      ensures Valid() && Model() == old(Model()).(phase := next)
    {
      phase := next;
      assert Names() == old(Names()) && States() == old(States());
    }

    /** Tears the first `n` modules down again, last first. */
    method RollBack(n: nat, answers: Answers) returns (status: LifecycleStatus)
      requires Valid() && n <= |modules|
      modifies this`phase, this`log, modules
      ensures Valid() && (Model(), status) == Rollback(old(Model()), n, answers)
    {
      hide DeinitModule, DeinitOne;
      ghost var all := Rollback(Model(), n, answers);
      var initialized: nat := n;
      while initialized > 0
        invariant Valid() && modules == old(modules) && initialized <= n
        invariant Rollback(Model(), initialized, answers) == all
      {
        initialized := initialized - 1;
        var ok := DeinitializeOne(initialized, answers);
        if !ok {
          Enter(Faulted);
          return RollbackFailed;
        }
      }
      return ModuleFailed;
    }

    method InitializeAll(answers: Answers) returns (status: LifecycleStatus)
      requires Valid()
      modifies this`phase, this`log, modules
      ensures Valid()
      ensures (Model(), status) == BroughtUp(old(Model()), answers)
    {
      if phase == Running {
        return Ok;
      }
      if phase != Configuring {
        return WrongState;
      }
      hide InitModule, InitOne, DeinitModule, DeinitOne;
      ghost var all := InitFrom(Model(), 0, answers);
      var initialized: nat := 0;
      while initialized < |modules|
        invariant Valid() && modules == old(modules) && initialized <= |modules| && phase == Configuring
        invariant InitFrom(Model(), initialized, answers) == all
      {
        var ok := InitializeOne(initialized, answers);
        if !ok {
          if modules[initialized].state == CleanupFailed {
            Enter(Faulted);
            return RollbackFailed;
          }
          status := RollBack(initialized, answers);
          return;
        }
        initialized := initialized + 1;
      }
      Enter(Running);
      return Ok;
    }

    method DeinitializeAll(answers: Answers) returns (status: LifecycleStatus)
      requires Valid()
      modifies this`phase, this`log, modules
      ensures Valid()
      ensures (Model(), status) == TornDown(old(Model()), answers)
    {
      hide DeinitModule;
      if phase == Configuring {
        return Ok;
      }
      ghost var all := DeinitFrom(Model(), |modules|, answers);
      var remaining: nat := |modules|;
      while remaining > 0
        invariant Valid() && modules == old(modules) && remaining <= |modules| && phase == old(phase)
        invariant DeinitFrom(Model(), remaining, answers) == all
      {
        if modules[remaining - 1].state != Stopped {
          var ok := DeinitializeOne(remaining - 1, answers);
          if !ok {
            Enter(Faulted);
            return ModuleFailed;
          }
        } else {
          StoppedIsSkipped(Model(), remaining - 1, answers);
        }
        remaining := remaining - 1;
      }
      Enter(Configuring);
      return Ok;
    }
  }
}
