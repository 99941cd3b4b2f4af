/** The setup wizard: an event-logging state machine with a session file whose saves may fail. */
module SetupWizard {
  import opened Wrappers

  type Time = int

  datatype Platform = Linux | MacOs | Windows | Web | Mobile | Unknown
  datatype DeploymentChoice = Standalone | Micro | Elastic
  datatype InstallStrategy = Prebuilt | Build | Source

  datatype SetupStep =
    | Welcome | DeployMode | InstallStrategyStep | Stack | WriteSecrets | Llm
    | AgentIdentity | Skills | AgentTopology | Verify | Complete

  datatype SetupEvent =
    | StepEntered(step: SetupStep)
    | DeploymentChosen(choice: DeploymentChoice)
    | InstallStrategyChosen(strategy: InstallStrategy)
    | UserAnswer(at: SetupStep, field: string, value: string)
    | DoctorResult(passed: bool, summary: string)
    | ToolResult(tool: string, ok: bool, message: string)
    | Aborted(reason: Option<string>)
    | Completed

  datatype SetupSession = SetupSession(
    id: nat,
    platform: Platform,
    currentStep: SetupStep,
    deployment: Option<DeploymentChoice>,
    installStrategy: Option<InstallStrategy>,
    aborted: bool,
    createdAt: Time,
    updatedAt: Time,
    events: seq<SetupEvent>)

  datatype SetupError = WasAborted | InvalidTransition | DeployModeRequired(step: SetupStep) | SaveFailed | ConfigFailed

  // Phases.

  function FromPhase(phase: nat): Option<SetupStep> {
    match phase
    case 0 => Some(Welcome)
    case 1 => Some(DeployMode)
    case 2 => Some(InstallStrategyStep)
    case 3 => Some(Stack)
    case 4 => Some(WriteSecrets)
    case 5 => Some(Llm)
    case 6 => Some(AgentIdentity)
    case 7 => Some(Skills)
    case 8 => Some(AgentTopology)
    case 9 => Some(Verify)
    case 10 => Some(Complete)
    case _ => None
  }

  function Phase(step: SetupStep): nat {
    match step
    case Welcome => 0
    case DeployMode => 1
    case InstallStrategyStep => 2
    case Stack => 3
    case WriteSecrets => 4
    case Llm => 5
    case AgentIdentity => 6
    case Skills => 7
    case AgentTopology => 8
    case Verify => 9
    case Complete => 10
  }

  /** `next`, with the phase saturating at 255. */
  function NextStep(step: SetupStep): Option<SetupStep> {
    FromPhase(if Phase(step) < 255 then Phase(step) + 1 else 255)
  }

  predicate RequiresDeployMode(step: SetupStep) {
    Phase(step) >= Phase(WriteSecrets)
  }

  function NewSession(id: nat, platform: Platform, now: Time): SetupSession {
    SetupSession(id, platform, Welcome, None, None, false, now, now, [])
  }

  // One call on a session. Times and ids are what the call draws.

  datatype Op =
    | SetDeployment(choice: DeploymentChoice)
    | SetInstallStrategy(strategy: InstallStrategy)
    | Advance
    | GoTo(step: SetupStep)
    | Reset(id: nat)
    | Abort(reason: Option<string>)
    | Finish

  /** Appending an event and touching the session. */
  function Log(s: SetupSession, e: SetupEvent, now: Time): SetupSession {
    s.(events := s.events + [e], updatedAt := now)
  }

  /** Why a call is refused before it changes anything, if it is. */
  function Refusal(s: SetupSession, op: Op): Option<SetupError> {
    var target: Option<SetupStep> :=
      match op
      case Advance => NextStep(s.currentStep)
      case GoTo(step) => Some(step)
      case Finish => Some(Complete)
      case _ => None;
    if op.Reset? || op.Abort? then None
    else if s.aborted then Some(WasAborted)
    else if op.Advance? && target.None? then Some(InvalidTransition)
    else if target.Some? && RequiresDeployMode(target.value) && s.deployment.None? then
      Some(DeployModeRequired(target.value))
    else None
  }

  /** The session at the call's first save. */
  function First(s: SetupSession, op: Op, now: Time): SetupSession
    requires Refusal(s, op).None?
  {
    match op
    case SetDeployment(choice) => Log(s.(deployment := Some(choice)), DeploymentChosen(choice), now)
    case SetInstallStrategy(strategy) => Log(s.(installStrategy := Some(strategy)), InstallStrategyChosen(strategy), now)
    case Advance => Log(s.(currentStep := NextStep(s.currentStep).value), StepEntered(NextStep(s.currentStep).value), now)
    case GoTo(step) => Log(s.(currentStep := step), StepEntered(step), now)
    case Reset(id) => NewSession(id, s.platform, now)
    case Abort(reason) => Log(s.(aborted := true), Aborted(reason), now)
    case Finish => Log(s.(currentStep := Complete), StepEntered(Complete), now)
  }

  /** The machine: its session, whether it saves, and the session file. */
  datatype Machine = Machine(session: SetupSession, persist: bool, disk: Option<SetupSession>)

  /** A save that may fail; the file is replaced as a whole or not at all. */
  function Save(m: Machine, saved: bool): Machine {
    if m.persist && saved then m.(disk := Some(m.session)) else m
  }

  /** Whether a save reports success. */
  predicate SaveOk(m: Machine, saved: bool) {
    !m.persist || saved
  }

  /** One call: `saved1` and `saved2` tell whether its first and second save succeed. */
  function Apply(m: Machine, op: Op, now: Time, saved1: bool, saved2: bool): Machine {
    if Refusal(m.session, op).Some? then m
    else
      var m1 := Save(m.(session := First(m.session, op, now)), saved1);
      if op.Finish? && SaveOk(m1, saved1) then Save(m1.(session := Log(m1.session, Completed, now)), saved2) else m1
  }

  /** What a call reports: why it was refused, a failed save, or the value. */
  function Report<T>(refusal: Option<SetupError>, saved: bool, value: T): (r: Result<T, SetupError>)
    ensures r.Success? <==> refusal.None? && saved
    ensures r.Success? ==> r.value == value
    ensures r.Failure? ==> r.error == if refusal.Some? then refusal.value else SaveFailed
  {
    match refusal
    case Some(e) => Failure(e)
    case None => if saved then Success(value) else Failure(SaveFailed)
  }

  class SetupStateMachine {
    var session: SetupSession
    var persist: bool
    var disk: Option<SetupSession>

    function State(): Machine
      reads this
    {
      Machine(session, persist, disk)
    }

    constructor (session: SetupSession, persist: bool, disk: Option<SetupSession>)
      ensures State() == Machine(session, persist, disk)
    {
      this.session, this.persist, this.disk := session, persist, disk;
    }

    method PersistIfEnabled(saved: bool) returns (ok: bool)
      modifies this`disk
      ensures State() == Save(old(State()), saved) && ok == SaveOk(old(State()), saved)
    {
      if persist {
        if saved {
          disk := Some(session);
        }
        return saved;
      }
      return true;
    }

    method ChooseDeployment(choice: DeploymentChoice, now: Time, saved: bool) returns (r: Result<(), SetupError>)
      modifies this
      ensures State() == Apply(old(State()), SetDeployment(choice), now, saved, saved)
      ensures r == Report(Refusal(old(session), SetDeployment(choice)), SaveOk(State(), saved), ())
    {
      if session.aborted {
        return Failure(WasAborted);
      }
      session := session.(deployment := Some(choice));
      session := session.(events := session.events + [DeploymentChosen(choice)]);
      session := session.(updatedAt := now);
      var ok := PersistIfEnabled(saved);
      return if ok then Success(()) else Failure(SaveFailed);
    }

    method ChooseInstallStrategy(strategy: InstallStrategy, now: Time, saved: bool) returns (r: Result<(), SetupError>)
      modifies this
      ensures State() == Apply(old(State()), SetInstallStrategy(strategy), now, saved, saved)
      ensures r == Report(Refusal(old(session), SetInstallStrategy(strategy)), SaveOk(State(), saved), ())
    {
      if session.aborted {
        return Failure(WasAborted);
      }
      session := session.(installStrategy := Some(strategy));
      session := session.(events := session.events + [InstallStrategyChosen(strategy)]);
      session := session.(updatedAt := now);
      var ok := PersistIfEnabled(saved);
      return if ok then Success(()) else Failure(SaveFailed);
    }

    method EnterStep(step: SetupStep, now: Time, saved: bool) returns (r: Result<SetupStep, SetupError>)
      modifies this
      ensures State() == Apply(old(State()), GoTo(step), now, saved, saved)
      ensures r == Report(Refusal(old(session), GoTo(step)), SaveOk(State(), saved), step)
      ensures r.Success? <==> Refusal(old(session), GoTo(step)).None? && (!persist || saved)
    {
      if session.aborted {
        return Failure(WasAborted);
      }
      if RequiresDeployMode(step) && session.deployment.None? {
        return Failure(DeployModeRequired(step));
      }
      session := session.(currentStep := step);
      session := session.(events := session.events + [StepEntered(step)]);
      session := session.(updatedAt := now);
      var ok := PersistIfEnabled(saved);
      return if ok then Success(step) else Failure(SaveFailed);
    }

    method AdvanceStep(now: Time, saved: bool) returns (r: Result<SetupStep, SetupError>)
      modifies this
      ensures State() == Apply(old(State()), Advance, now, saved, saved)
      ensures r == Report(Refusal(old(session), Advance), SaveOk(State(), saved), session.currentStep)
      ensures r.Success? <==> Refusal(old(session), Advance).None? && (!persist || saved)
      ensures r.Success? ==> Phase(r.value) == Phase(old(session.currentStep)) + 1 && session.currentStep == r.value
    {
      if session.aborted {
        return Failure(WasAborted);
      }
      var next := NextStep(session.currentStep);
      if next.None? {
        return Failure(InvalidTransition);
      }
      r := EnterStep(next.value, now, saved);
    }

    method StartOver(id: nat, now: Time, saved: bool) returns (r: Result<(), SetupError>)
      modifies this
      ensures State() == Apply(old(State()), Reset(id), now, saved, saved)
      ensures r == Report(None, SaveOk(State(), saved), ())
    {
      session := NewSession(id, session.platform, now);
      var ok := PersistIfEnabled(saved);
      return if ok then Success(()) else Failure(SaveFailed);
    }

    method AbortSetup(reason: Option<string>, now: Time, saved: bool) returns (r: Result<(), SetupError>)
      modifies this
      ensures State() == Apply(old(State()), Abort(reason), now, saved, saved)
      ensures r == Report(None, SaveOk(State(), saved), ())
    {
      session := session.(aborted := true);
      session := session.(events := session.events + [Aborted(reason)]);
      session := session.(updatedAt := now);
      var ok := PersistIfEnabled(saved);
      return if ok then Success(()) else Failure(SaveFailed);
    }

    /** `configured` tells whether marking the user configuration succeeds afterwards. */
    method CompleteSetup(now: Time, saved1: bool, saved2: bool, configured: bool) returns (r: Result<(), SetupError>)
      modifies this
      ensures State() == Apply(old(State()), Finish, now, saved1, saved2)
      ensures var saves := Report(Refusal(old(session), Finish), SaveOk(State(), saved1) && SaveOk(State(), saved2), ());
              r == if saves.Success? && !configured then Failure(ConfigFailed) else saves
    {
      var entered := EnterStep(Complete, now, saved1);
      if entered.Failure? {
        return Failure(entered.error);
      }
      session := session.(events := session.events + [Completed]);
      session := session.(updatedAt := now);
      var ok := PersistIfEnabled(saved2);
      if !ok {
        return Failure(SaveFailed);
      }
      return if configured then Success(()) else Failure(ConfigFailed);
    }
  }

  // Which calls are refused, and what the others do.

  /** The wizard's steps in their order. */
  const ORDER: seq<SetupStep> := [
    Welcome, DeployMode, InstallStrategyStep, Stack, WriteSecrets, Llm,
    AgentIdentity, Skills, AgentTopology, Verify, Complete]

  lemma {:induction false} OrderIs(i: nat)
    requires i < 11
    ensures |ORDER| == 11 && Phase(ORDER[i]) == i
    ensures NextStep(ORDER[i]) == if i < 10 then Some(ORDER[i + 1]) else None
    ensures RequiresDeployMode(ORDER[i]) <==> ORDER[i] !in {Welcome, DeployMode, InstallStrategyStep, Stack}
  {
    assert ORDER[0] == Welcome && ORDER[1] == DeployMode && ORDER[2] == InstallStrategyStep && ORDER[3] == Stack;
    assert ORDER[4] == WriteSecrets && ORDER[5] == Llm && ORDER[6] == AgentIdentity && ORDER[7] == Skills;
    assert ORDER[8] == AgentTopology && ORDER[9] == Verify && ORDER[10] == Complete;
  }

  lemma StepIsInOrder(step: SetupStep)
    ensures |ORDER| == 11 && ORDER[Phase(step)] == step
  {
    OrderIs(Phase(step));
  }

  /**
   Only a reset and an abort always go through. The other calls need a session that is not aborted;
   going to a step after the stack, by name, by advancing or by finishing, needs a chosen deployment;
   and the last step has no next one.
   */
  lemma RefusedIff(s: SetupSession, op: Op)
    ensures Refusal(s, op).None? <==>
            match op
            case Reset(_) => true
            case Abort(_) => true
            case SetDeployment(_) => !s.aborted
            case SetInstallStrategy(_) => !s.aborted
            case GoTo(step) =>
              !s.aborted && (step in {Welcome, DeployMode, InstallStrategyStep, Stack} || s.deployment.Some?)
            case Finish => !s.aborted && s.deployment.Some?
            case Advance =>
              && !s.aborted && s.currentStep != Complete
              && (s.currentStep in {Welcome, DeployMode, InstallStrategyStep} || s.deployment.Some?)
    ensures Refusal(s, op) == Some(WasAborted) <==> s.aborted && !op.Reset? && !op.Abort?
    ensures Refusal(s, op) == Some(InvalidTransition) <==> !s.aborted && op.Advance? && s.currentStep == Complete
    ensures forall step :: Refusal(s, op) == Some(DeployModeRequired(step)) ==>
              && (op.GoTo? ==> step == op.step) && (op.Finish? ==> step == Complete)
              && (op.Advance? ==> Phase(step) == Phase(s.currentStep) + 1)
  {
    OrderIs(Phase(s.currentStep));
    StepIsInOrder(s.currentStep);
  }

  /** A call that is not refused moves a session as its name says, and keeps the rest. */
  lemma CallMoves(s: SetupSession, op: Op, now: Time)
    requires Refusal(s, op).None?
    ensures var s' := First(s, op, now);
            && s'.updatedAt == now && s'.platform == s.platform
            && (op.Reset? <==> s'.events == [] ) && (!op.Reset? ==> s'.id == s.id && s'.createdAt == s.createdAt)
            && (!op.Reset? ==> |s'.events| == |s.events| + 1 && s'.events[..|s.events|] == s.events)
            && (op.Reset? ==> s' == SetupSession(op.id, s.platform, Welcome, None, None, false, now, now, []))
            && (op.Advance? ==> Phase(s'.currentStep) == Phase(s.currentStep) + 1)
            && (op.GoTo? ==> s'.currentStep == op.step) && (op.Finish? ==> s'.currentStep == Complete)
            && (op.SetDeployment? ==> s'.deployment == Some(op.choice))
            && (op.SetInstallStrategy? ==> s'.installStrategy == Some(op.strategy))
            && (op.Abort? ==> s'.aborted)
  {
    OrderIs(Phase(s.currentStep));
    StepIsInOrder(s.currentStep);
  }

  /** A call all of whose saves succeed leaves its session on file, so a resume goes on from just there. */
  lemma ResumeAfterSuccess(m: Machine, op: Op, now: Time)
    requires m.persist && Refusal(m.session, op).None?
    ensures var m' := Apply(m, op, now, true, true);
            && m'.disk == Some(m'.session)
            && m'.session == (if op.Finish? then Log(First(m.session, op, now), Completed, now) else First(m.session, op, now))
            && Happen(m', Resumed) == m'
  {
  }

  /** A call whose save fails, or a machine that does not persist, leaves the file as it was. */
  lemma FileStaysUnsaved(m: Machine, op: Op, now: Time, saved1: bool, saved2: bool)
    requires !m.persist || (!saved1 && !saved2)
    ensures Apply(m, op, now, saved1, saved2).disk == m.disk
  {
  }

  // The log against the session.

  /** What the log says about step, deployment, strategy and abortion. */
  function StepIn(events: seq<SetupEvent>): SetupStep {
    if events == [] then Welcome
    else if events[|events| - 1].StepEntered? then events[|events| - 1].step
    else StepIn(events[..|events| - 1])
  }

  function DeploymentIn(events: seq<SetupEvent>): Option<DeploymentChoice> {
    if events == [] then None
    else if events[|events| - 1].DeploymentChosen? then Some(events[|events| - 1].choice)
    else DeploymentIn(events[..|events| - 1])
  }

  function StrategyIn(events: seq<SetupEvent>): Option<InstallStrategy> {
    if events == [] then None
    else if events[|events| - 1].InstallStrategyChosen? then Some(events[|events| - 1].strategy)
    else StrategyIn(events[..|events| - 1])
  }

  predicate AbortedIn(events: seq<SetupEvent>) {
    events != [] && (events[|events| - 1].Aborted? || AbortedIn(events[..|events| - 1]))
  }

  /** Replaying the log from a fresh session gives the session's fields. */
  predicate Replays(s: SetupSession) {
    && s.currentStep == StepIn(s.events) && s.deployment == DeploymentIn(s.events)
    && s.installStrategy == StrategyIn(s.events) && s.aborted == AbortedIn(s.events)
  }

  /** The event may stand after this log. */
  predicate MayFollow(events: seq<SetupEvent>, e: SetupEvent) {
    match e
    case StepEntered(step) => !AbortedIn(events) && (RequiresDeployMode(step) ==> DeploymentIn(events).Some?)
    case DeploymentChosen(_) => !AbortedIn(events)
    case InstallStrategyChosen(_) => !AbortedIn(events)
    case Aborted(_) => true
    case Completed => !AbortedIn(events) && events != [] && events[|events| - 1] == StepEntered(Complete)
    case _ => false
  }

  /** The grammar of logs. */
  predicate LogOk(events: seq<SetupEvent>) {
    events == [] || (LogOk(events[..|events| - 1]) && MayFollow(events[..|events| - 1], events[|events| - 1]))
  }

  /** A session that resuming may start from. */
  predicate SoundSession(s: SetupSession) {
    LogOk(s.events) && Replays(s)
  }

  lemma LogOfAppend(events: seq<SetupEvent>, e: SetupEvent)
    ensures LogOk(events + [e]) <==> LogOk(events) && MayFollow(events, e)
    ensures StepIn(events + [e]) == if e.StepEntered? then e.step else StepIn(events)
    ensures DeploymentIn(events + [e]) == if e.DeploymentChosen? then Some(e.choice) else DeploymentIn(events)
    ensures StrategyIn(events + [e]) == if e.InstallStrategyChosen? then Some(e.strategy) else StrategyIn(events)
    ensures AbortedIn(events + [e]) <==> e.Aborted? || AbortedIn(events)
  {
    assert (events + [e])[..|events|] == events;
  }

  /** In every log of the grammar a step of phase 4 or later comes after a choice of deployment ... */
  lemma {:induction false} LateStepsFollowDeployment(events: seq<SetupEvent>, i: nat)
    requires LogOk(events) && i < |events| && events[i].StepEntered? && Phase(events[i].step) >= 4
    ensures exists j :: 0 <= j < i && events[j].DeploymentChosen?
  {
    var init := events[..|events| - 1];
    if i < |events| - 1 {
      LateStepsFollowDeployment(init, i);
      var j :| 0 <= j < i && init[j].DeploymentChosen?;
      assert events[j] == init[j];
    } else {
      ChoiceInLog(init);
      var j :| 0 <= j < |init| && init[j].DeploymentChosen?;
      assert events[j] == init[j];
    }
  }

  lemma {:induction false} ChoiceInLog(events: seq<SetupEvent>)
    requires DeploymentIn(events).Some?
    ensures exists j :: 0 <= j < |events| && events[j].DeploymentChosen?
  {
    if !events[|events| - 1].DeploymentChosen? {
      var init := events[..|events| - 1];
      ChoiceInLog(init);
      var j :| 0 <= j < |init| && init[j].DeploymentChosen?;
      assert events[j] == init[j];
    }
  }

  /** ... and nothing but further abortions comes after an abortion. */
  lemma {:induction false} OnlyAbortsFollowAbort(events: seq<SetupEvent>, i: nat, j: nat)
    requires LogOk(events) && i < j < |events| && events[i].Aborted?
    ensures events[j].Aborted?
  {
    var init := events[..|events| - 1];
    if j < |events| - 1 {
      OnlyAbortsFollowAbort(init, i, j);
    } else {
      AbortInLog(init, i);
    }
  }

  lemma {:induction false} AbortInLog(events: seq<SetupEvent>, i: nat)
    requires i < |events| && events[i].Aborted?
    ensures AbortedIn(events)
  {
    if i < |events| - 1 {
      AbortInLog(events[..|events| - 1], i);
    }
  }

  // Runs.

  /** The sessions that memory passes through during a call, in order. */
  function Visits(m: Machine, op: Op, now: Time, saved1: bool): seq<SetupSession> {
    if Refusal(m.session, op).Some? then []
    else
      var first := First(m.session, op, now);
      if op.Finish? && SaveOk(m, saved1) then [first, Log(first, Completed, now)] else [first]
  }

  /** What one event does to the fields it records. */
  predicate Recorded(s: SetupSession, s': SetupSession, e: SetupEvent) {
    && s'.events == s.events + [e]
    && s'.currentStep == (if e.StepEntered? then e.step else s.currentStep)
    && s'.deployment == (if e.DeploymentChosen? then Some(e.choice) else s.deployment)
    && s'.installStrategy == (if e.InstallStrategyChosen? then Some(e.strategy) else s.installStrategy)
    && s'.aborted == (e.Aborted? || s.aborted)
  }

  lemma RecordedIsSound(s: SetupSession, s': SetupSession, e: SetupEvent)
    requires SoundSession(s) && Recorded(s, s', e) && MayFollow(s.events, e)
    ensures SoundSession(s')
  {
    LogOfAppend(s.events, e);
  }

  /** The event of a call's first save. */
  function EventOf(s: SetupSession, op: Op): SetupEvent
    requires Refusal(s, op).None? && !op.Reset?
  {
    match op
    case SetDeployment(choice) => DeploymentChosen(choice)
    case SetInstallStrategy(strategy) => InstallStrategyChosen(strategy)
    case Advance => StepEntered(NextStep(s.currentStep).value)
    case GoTo(step) => StepEntered(step)
    case Abort(reason) => Aborted(reason)
    case Finish => StepEntered(Complete)
  }

  lemma FirstIsRecorded(s: SetupSession, op: Op, now: Time)
    requires Refusal(s, op).None? && !op.Reset?
    ensures Recorded(s, First(s, op, now), EventOf(s, op))
  {
  }

  lemma FirstMayFollow(s: SetupSession, op: Op)
    requires Replays(s) && Refusal(s, op).None? && !op.Reset?
    ensures MayFollow(s.events, EventOf(s, op))
  {
  }

  lemma FirstIsSound(s: SetupSession, op: Op, now: Time)
    requires SoundSession(s) && Refusal(s, op).None?
    ensures SoundSession(First(s, op, now))
  {
    if !op.Reset? {
      FirstIsRecorded(s, op, now);
      FirstMayFollow(s, op);
      RecordedIsSound(s, First(s, op, now), EventOf(s, op));
    }
  }

  lemma CompletedIsSound(s: SetupSession, now: Time)
    requires SoundSession(s) && Refusal(s, Finish).None?
    ensures SoundSession(Log(First(s, Finish, now), Completed, now))
  {
    FirstIsSound(s, Finish, now);
    var first := First(s, Finish, now);
    RecordedIsSound(first, Log(first, Completed, now), Completed);
  }

  /** Every session a call passes through is sound ... */
  lemma CallKeepsSound(m: Machine, op: Op, now: Time, saved1: bool, saved2: bool)
    requires SoundSession(m.session)
    ensures forall s :: s in Visits(m, op, now, saved1) ==> SoundSession(s)
    ensures SoundSession(Apply(m, op, now, saved1, saved2).session)
  {
    if Refusal(m.session, op).None? {
      FirstIsSound(m.session, op, now);
      if op.Finish? {
        CompletedIsSound(m.session, now);
      }
    }
  }

  /** ... and what it leaves on file is one of them, or what was there. */
  lemma CallSavesVisited(m: Machine, op: Op, now: Time, saved1: bool, saved2: bool)
    ensures var after, before := Apply(m, op, now, saved1, saved2).disk, m.disk;
            after == before || (after.Some? && after.value in Visits(m, op, now, saved1))
  {
  }

  /** One thing that happens to a machine: a call, or a resume from the file by a new process. */
  datatype Happening = Called(op: Op, now: Time, saved1: bool, saved2: bool) | Resumed

  /** `resume` starts from the file if there is one. */
  function Happen(m: Machine, h: Happening): Machine {
    match h
    case Called(op, now, saved1, saved2) => Apply(m, op, now, saved1, saved2)
    case Resumed => if m.disk.Some? then Machine(m.disk.value, true, m.disk) else m
  }

  /** A run from a fresh session and no file. */
  function RunOf(id: nat, platform: Platform, now: Time, persist: bool, hs: seq<Happening>): Machine {
    if hs == [] then Machine(NewSession(id, platform, now), persist, None)
    else Happen(RunOf(id, platform, now, persist, hs[..|hs| - 1]), hs[|hs| - 1])
  }

  /** All sessions memory has passed through in a run. */
  function Passed(id: nat, platform: Platform, now: Time, persist: bool, hs: seq<Happening>): seq<SetupSession> {
    if hs == [] then [NewSession(id, platform, now)]
    else
      var m := RunOf(id, platform, now, persist, hs[..|hs| - 1]);
      var h := hs[|hs| - 1];
      Passed(id, platform, now, persist, hs[..|hs| - 1]) + (if h.Called? then Visits(m, h.op, h.now, h.saved1) else [])
  }

  /**
   After every run, with saves failing anywhere and any number of resumes: the session's fields are
   those its log replays to, its log obeys the grammar, and the file, if there is one, holds a
   session that memory passed through, with the same two properties: resuming from it is legal.
   */
  lemma {:induction false} RunIsSound(id: nat, platform: Platform, now: Time, persist: bool, hs: seq<Happening>)
    ensures var m := RunOf(id, platform, now, persist, hs);
            && SoundSession(m.session)
            && (m.disk.Some? ==> SoundSession(m.disk.value) && m.disk.value in Passed(id, platform, now, persist, hs))
  {
    if hs != [] {
      var init, h := hs[..|hs| - 1], hs[|hs| - 1];
      RunIsSound(id, platform, now, persist, init);
      if h.Called? {
        var m := RunOf(id, platform, now, persist, init);
        CallKeepsSound(m, h.op, h.now, h.saved1, h.saved2);
        CallSavesVisited(m, h.op, h.now, h.saved1, h.saved2);
      }
    }
  }

  /** The call whose first save appends this event. */
  function CallFor(e: SetupEvent): Op
    requires e.StepEntered? || e.DeploymentChosen? || e.InstallStrategyChosen? || e.Aborted?
  {
    match e
    case StepEntered(step) => GoTo(step)
    case DeploymentChosen(choice) => SetDeployment(choice)
    case InstallStrategyChosen(strategy) => SetInstallStrategy(strategy)
    case Aborted(reason) => Abort(reason)
  }

  lemma CallForAppends(m: Machine, e: SetupEvent, now: Time)
    requires Replays(m.session) && MayFollow(m.session.events, e) && !e.Completed?
    ensures Apply(m, CallFor(e), now, true, true).session.events == m.session.events + [e]
  {
  }

  lemma FinishAppends(m: Machine, now: Time)
    requires Replays(m.session) && MayFollow(m.session.events, StepEntered(Complete))
    ensures Apply(m, Finish, now, true, true).session.events == m.session.events + [StepEntered(Complete), Completed]
  {
  }

  lemma Extend(id: nat, platform: Platform, now: Time, prior: seq<Happening>, e: SetupEvent) returns (hs: seq<Happening>)
    requires var events := RunOf(id, platform, now, true, prior).session.events;
             MayFollow(events, e) && !e.Completed?
    ensures RunOf(id, platform, now, true, hs).session.events ==
            RunOf(id, platform, now, true, prior).session.events + [e]
  {
    RunIsSound(id, platform, now, true, prior);
    CallForAppends(RunOf(id, platform, now, true, prior), e, now);
    hs := prior + [Called(CallFor(e), now, true, true)];
    assert hs[..|hs| - 1] == prior;
  }

  /** Every log of the grammar is the log of some run: the grammar describes the machine exactly. */
  lemma {:induction false} EveryLogIsReachable(id: nat, platform: Platform, now: Time, events: seq<SetupEvent>)
    returns (hs: seq<Happening>)
    requires LogOk(events)
    ensures RunOf(id, platform, now, true, hs).session.events == events
    decreases |events|, 1
  {
    if events == [] {
      hs := [];
    } else {
      var init, last := events[..|events| - 1], events[|events| - 1];
      if last == Completed {
        hs := CompletedIsReachable(id, platform, now, events);
      } else {
        var prior := EveryLogIsReachable(id, platform, now, init);
        hs := Extend(id, platform, now, prior, last);
      }
    }
  }

  lemma {:induction false} CompletedIsReachable(id: nat, platform: Platform, now: Time, events: seq<SetupEvent>)
    returns (hs: seq<Happening>)
    requires LogOk(events) && events != [] && events[|events| - 1] == Completed
    ensures RunOf(id, platform, now, true, hs).session.events == events
    decreases |events|, 0
  {
    var init := events[..|events| - 1];
    var before := init[..|init| - 1];
    assert init[|init| - 1] == StepEntered(Complete);
    assert events == before + [StepEntered(Complete), Completed];
    var prior := EveryLogIsReachable(id, platform, now, before);
    RunIsSound(id, platform, now, true, prior);
    FinishAppends(RunOf(id, platform, now, true, prior), now);
    hs := prior + [Called(Finish, now, true, true)];
    assert hs[..|hs| - 1] == prior;
  }
}
