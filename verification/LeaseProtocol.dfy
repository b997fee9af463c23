/**
 * Caller, launcher and guardian of containers/ffmpeg/runtime.py (`run_operation`, `guardian`) as
 * steps. The launcher holds the write end of a pipe, the lease; every way in which it ends closes
 * that end, and the guardian looks at the read end.
 */
module LeaseProtocol {

  datatype Phase = Building | FirstLook | Creating | SecondLook | Waiting | Cleaning | Finished

  datatype State = State(callerAlive: bool, launcherEnded: bool, leaseOpen: bool, phase: Phase, built: bool,
                         clientEnded: bool, failed: bool, cleanups: nat)

  datatype Action =
    | CallerDies
    | LauncherPolls       // one turn of the launcher's loop
    | LauncherCrashes     // an exception or a kill, at any time
    | ClientEnds
    | GuardianSteps(ok: bool)   // `ok`: the command of this step succeeds

  const START := State(true, false, true, Building, false, false, false, 0)

  function EndLauncher(s: State): State {
    s.(launcherEnded := true, leaseOpen := false)
  }

  function StepGuardian(s: State, ok: bool): State {
    match s.phase
    case Building => if ok then s.(phase := FirstLook, built := true) else s.(phase := Finished, failed := true)
    case FirstLook => s.(phase := if s.leaseOpen then Creating else Cleaning)
    case Creating => if ok then s.(phase := SecondLook) else s.(phase := Cleaning, failed := true)
    case SecondLook =>
      if !s.leaseOpen then s.(phase := Cleaning)
      else if ok then s.(phase := Waiting)
      else s.(phase := Cleaning, failed := true)
    case Waiting => if !s.clientEnded && s.leaseOpen then s else s.(phase := Cleaning)
    case Cleaning => s.(phase := Finished, cleanups := s.cleanups + 1)
    case Finished => s
  }

  function Act(s: State, a: Action): State {
    match a
    case CallerDies => s.(callerAlive := false)
    case LauncherPolls => if !s.launcherEnded && (s.phase.Finished? || !s.callerAlive) then EndLauncher(s) else s
    case LauncherCrashes => if s.launcherEnded then s else EndLauncher(s)
    case ClientEnds => if s.phase.Waiting? then s.(clientEnded := true) else s
    case GuardianSteps(ok) => StepGuardian(s, ok)
  }

  function Run(s: State, actions: seq<Action>): State
    decreases |actions|
  {
    if actions == [] then s else Run(Act(s, actions[0]), actions[1..])
  }

  function GuardianTurns(actions: seq<Action>): nat {
    if actions == [] then 0 else (if actions[0].GuardianSteps? then 1 else 0) + GuardianTurns(actions[1..])
  }

  ghost predicate Inv(s: State) {
    && (s.launcherEnded <==> !s.leaseOpen)
    && (s.cleanups == if s.phase.Finished? && s.built then 1 else 0)
    && (!s.phase.Building? && !s.phase.Finished? ==> s.built)
    && (s.phase.Building? ==> !s.built)
    // The guardian gives up on a container only for a reason.
    && (s.phase.Cleaning? || s.phase.Finished? ==> s.clientEnded || s.failed || !s.leaseOpen)
  }

  lemma ActInv(s: State, a: Action)
    requires Inv(s)
    ensures Inv(Act(s, a))
  {
    match a
    case GuardianSteps(ok) => assert Inv(StepGuardian(s, ok));
    case _ =>
  }

  lemma {:induction false} EveryRun(s: State, actions: seq<Action>)
    requires Inv(s)
    ensures Inv(Run(s, actions))
    decreases |actions|
  {
    if actions != [] {
      ActInv(s, actions[0]);
      EveryRun(Act(s, actions[0]), actions[1..]);
    }
  }

  // Guardian steps left, at most, once the lease is closed.
  function Rank(p: Phase): nat {
    match p
    case Building => 6
    case FirstLook => 5
    case Creating => 4
    case SecondLook => 3
    case Waiting => 2
    case Cleaning => 1
    case Finished => 0
  }

  lemma GuardianRank(s: State, ok: bool)
    requires !s.leaseOpen
    ensures Rank(StepGuardian(s, ok).phase) <= if s.phase.Finished? then 0 else Rank(s.phase) - 1
  {
    match s.phase
    case _ =>
  }

  lemma ActRank(s: State, a: Action)
    requires s.launcherEnded && !s.leaseOpen
    ensures var s' := Act(s, a);
            && s'.launcherEnded && !s'.leaseOpen
            && Rank(s'.phase) <= (if a.GuardianSteps? && !s.phase.Finished? then Rank(s.phase) - 1 else Rank(s.phase))
  {
    match a
    case GuardianSteps(ok) => GuardianRank(s, ok);
    case _ =>
  }

  lemma {:induction false} RankFalls(s: State, actions: seq<Action>)
    requires Inv(s) && s.launcherEnded
    ensures Run(s, actions).launcherEnded
    ensures Rank(Run(s, actions).phase) + GuardianTurns(actions) <= Rank(s.phase) || Run(s, actions).phase.Finished?
    decreases |actions|
  {
    if actions != [] {
      var s' := Act(s, actions[0]);
      ActInv(s, actions[0]);
      ActRank(s, actions[0]);
      RankFalls(s', actions[1..]);
      if s'.phase.Finished? { StaysFinished(s', actions[1..]); }
    }
  }

  lemma {:induction false} StaysFinished(s: State, actions: seq<Action>)
    requires s.phase.Finished?
    ensures Run(s, actions).phase.Finished?
    decreases |actions|
  {
    if actions != [] { StaysFinished(Act(s, actions[0]), actions[1..]); }
  }

  // However the launcher ended, six guardian steps later the guardian is done and has made its
  // one cleanup attempt, if it ever had an engine; no step of the engine can prevent that.
  lemma ClosedLeaseCleansUp(before: seq<Action>, after: seq<Action>)
    requires Run(START, before).launcherEnded && GuardianTurns(after) >= 6
    ensures var s := Run(Run(START, before), after); s.phase.Finished? && (s.built ==> s.cleanups == 1)
  {
    EveryRun(START, before);
    RankFalls(Run(START, before), after);
    EveryRun(Run(START, before), after);
  }

  // The whole chain: the caller dies, the launcher takes one more turn, and the guardian is done
  // six steps later.
  lemma CallerDeathCleansUp(before: seq<Action>, after: seq<Action>)
    requires !Run(START, before).callerAlive && GuardianTurns(after) >= 6
    ensures var s := Run(Act(Run(START, before), LauncherPolls), after);
            s.phase.Finished? && (s.built ==> s.cleanups == 1)
  {
    EveryRun(START, before);
    var s := Act(Run(START, before), LauncherPolls);
    RankFalls(s, after);
    EveryRun(s, after);
  }

  // The same without a closed lease: once the client has ended or a step has failed, two more
  // guardian steps and the guardian is done.
  lemma {:induction false} EndedClientCleansUp(before: seq<Action>, after: seq<Action>)
    requires var s := Run(START, before); (s.clientEnded || s.failed) && GuardianTurns(after) >= 2
    ensures var s := Run(Run(START, before), after); s.phase.Finished? && (s.built ==> s.cleanups == 1)
  {
    EveryRun(START, before);
    EndedClientPhase(START, before);
    EndedRuns(Run(START, before), after);
    EveryRun(Run(START, before), after);
  }

  ghost predicate Ending(s: State) {
    s.clientEnded || s.failed ==> s.phase.Waiting? || s.phase.Cleaning? || s.phase.Finished?
  }

  lemma {:induction false} EndedClientPhase(s: State, actions: seq<Action>)
    requires Ending(s) && (s.phase.Waiting? ==> !s.failed)
    ensures Ending(Run(s, actions)) && (Run(s, actions).phase.Waiting? ==> !Run(s, actions).failed)
    decreases |actions|
  {
    if actions != [] { EndedClientPhase(Act(s, actions[0]), actions[1..]); }
  }

  lemma {:induction false} EndedRuns(s: State, actions: seq<Action>)
    requires Ending(s) && (s.phase.Waiting? ==> !s.failed) && (s.clientEnded || s.failed)
    ensures Rank(Run(s, actions).phase) + GuardianTurns(actions) <= Rank(s.phase) || Run(s, actions).phase.Finished?
    decreases |actions|
  {
    if actions != [] {
      var s' := Act(s, actions[0]);
      EndedRuns(s', actions[1..]);
      if s'.phase.Finished? { StaysFinished(s', actions[1..]); }
    }
  }

  // Once the lease is closed no client is started any more, whatever the guardian was about to do.
  lemma {:induction false} NoStartAfterClose(s: State, actions: seq<Action>)
    requires Inv(s) && !s.leaseOpen && !s.phase.Waiting?
    ensures !Run(s, actions).phase.Waiting?
    decreases |actions|
  {
    if actions != [] {
      ActInv(s, actions[0]);
      NoStartAfterClose(Act(s, actions[0]), actions[1..]);
    }
  }

  // The launcher's own turn: it ends when the guardian is done or the caller has died, and not before.
  lemma LauncherTurn(s: State)
    requires !s.launcherEnded
    ensures var t := Act(s, LauncherPolls);
            && (t.launcherEnded <==> s.phase.Finished? || !s.callerAlive) && (t.launcherEnded ==> !t.leaseOpen)
            && (!t.launcherEnded ==> t == s) && t.phase == s.phase && t.cleanups == s.cleanups
  {
  }

  // While the launcher lives and every command succeeds, four guardian steps start the client, and
  // it then runs undisturbed until it ends.
  lemma ClientIsStarted()
    ensures var ok := GuardianSteps(true);
            var s := Act(Act(Act(Act(START, ok), ok), ok), ok);
            && s.phase.Waiting? && s.built && s.cleanups == 0
            && Act(s, ok) == s && Act(Act(s, ClientEnds), ok).phase.Cleaning?
  {
  }

  // Until then a container in use is left alone: with a launcher alive, no failure and a client
  // still running, no cleanup has begun.
  lemma NoEarlyCleanup(actions: seq<Action>)
    requires var s := Run(START, actions); !s.launcherEnded && !s.failed && !s.clientEnded
    ensures var s := Run(START, actions); !s.phase.Cleaning? && s.cleanups == 0
  {
    EveryRun(START, actions);
  }
}
