/**
  Runs from the initial state on which promises made in the source's comments fail: a container
  started after it was stopped, a tick that runs before the placements of the previous one, and
  an assignment delivered twice. All use one application, one node and one organization.
*/
module Scenarios {
  import opened Basics
  import opened Cluster
  import opened Agreement
  import opened QuotaSafety
  import opened Convergence

  const ONLY_NODE := Node(0, true, 1, 1)

  const PLACE_WEB := PlacementMsg(0, "web")

  /** The platform before its first deploy, with room for `max` containers. */
  function Fresh(max: int): State {
    State([ONLY_NODE], [Application(0, "web", 1, 0, 0)], [], map[0 := Quota(max, 0, 0)], [], [], [], [], [], 0, map[])
  }

  /** ... with its first deployment recorded and nothing in flight. */
  function Deployed1(max: int): State { Fresh(max).(deployments := [Deployment(0, 0, "web", false)]) }

  function Requested(max: int): State { Deployed1(max).(placements := [PLACE_WEB]) }

  const PENDING := Container(0, 0, None, Pending, None, None)

  /** The first container is placed and its assignment queued. */
  function Assigned(max: int): State {
    Deployed1(max).(containers := [PENDING], assigns := [AssignMsg(0, 0, "web")])
  }

  // -- runs, one step at a time -------------------------------------------------------

  /** The run continues the earlier one by one step, which ends in t. */
  ghost predicate Continues(before: seq<State>, done: seq<Step>, step: Step, t: State, states: seq<State>, steps: seq<Step>) {
    IsRun(states, steps) && steps == done + [step] && states == before + [t]
  }

  lemma Continue(before: seq<State>, done: seq<Step>, step: Step, t: State) returns (states: seq<State>, steps: seq<Step>)
    requires IsRun(before, done) && Enabled(before[|done|], step) && t == Apply(before[|done|], step)
    ensures Continues(before, done, step, t, states, steps)
  {
    ExtendRun(before, done, step, t);
    states, steps := before + [t], done + [step];
  }

  const DEPLOY := Deploy(0, "", true)

  lemma FirstDeploy(max: int) returns (states: seq<State>, steps: seq<Step>)
    ensures Initial(Fresh(max)) && Continues([Fresh(max)], [], DEPLOY, Requested(max), states, steps)
  {
    states, steps := Continue([Fresh(max)], [], DEPLOY, Requested(max));
  }

  /** A request for the deployment is placed on the node while the organization has room. */
  lemma Places(s: State)
    requires s.nodes == [ONLY_NODE] && s.placements != [] && s.placements[0] == PLACE_WEB
    requires s.deployments == [Deployment(0, 0, "web", false)] && 0 in s.quotas
    requires |s.apps| == 1 && s.apps[0].cpu == 0 && s.apps[0].memory == 0
    requires s.quotas[0].maxCpu == 0 && s.quotas[0].maxMemory == 0
    requires |ActiveIn(s.containers, s.deployments, 0)| < s.quotas[0].maxContainers
    ensures Accepts(s)
    ensures Apply(s, Place(true)) == s.(placements := s.placements[1..], containers := s.containers + [PENDING],
                                        assigns := s.assigns + [AssignMsg(0, |s.containers|, "web")])
  {
    assert s.nodes[..0] == [];
    assert s.apps[..0] == [];
    assert OrgCpu(s.apps, 0) == OrgMemory(s.apps, 0) == 0;
  }

  lemma FirstPlace(max: int, before: seq<State>, done: seq<Step>) returns (states: seq<State>, steps: seq<Step>)
    requires max >= 1 && IsRun(before, done) && before[|done|] == Requested(max)
    ensures Continues(before, done, Place(true), Assigned(max), states, steps)
  {
    assert ActiveIn([], Deployed1(max).deployments, 0) == {};
    Places(Requested(max));
    states, steps := Continue(before, done, Place(true), Assigned(max));
  }

  // -- stopped, replaced, then started ------------------------------------------------

  function ScaledAway(): State { Assigned(1).(apps := [Application(0, "web", 0, 0, 0)]) }

  function Unassigned(): State { ScaledAway().(unassigns := [UnassignMsg(0, 0, "")]) }

  function StopReported(): State { ScaledAway().(log := [StatusMsg(0, "", Stopped)]) }

  const STOPPED := Container(0, 0, None, Stopped, None, Some(5))

  function StopRecorded(): State { StopReported().(acked := 1, containers := [STOPPED]) }

  function ScaledBack(): State { StopRecorded().(apps := Fresh(1).apps) }

  function ReplacementRequested(): State { ScaledBack().(placements := [PLACE_WEB]) }

  function Replaced(): State {
    ScaledBack().(containers := [STOPPED, PENDING], assigns := [AssignMsg(0, 0, "web"), AssignMsg(0, 1, "web")])
  }

  /** The first container is started after all, and says so. */
  function StartedLate(): State {
    Replaced().(assigns := [AssignMsg(0, 1, "web")], tracked := map[(0, 0) := Tracked("r", Running)],
                log := [StatusMsg(0, "", Stopped), StatusMsg(0, "r", Running)])
  }

  function Revived(): State {
    StartedLate().(acked := 2, containers := [Container(0, 0, Some("r"), Running, Some(7), Some(5)), PENDING])
  }

  const START_FIRST := StartAssigned(0, Some(Started("r", Running)), true)

  lemma ScaleAway(before: seq<State>, done: seq<Step>) returns (states: seq<State>, steps: seq<Step>)
    requires IsRun(before, done) && before[|done|] == Assigned(1)
    ensures Continues(before, done, Scale(0, 0), ScaledAway(), states, steps)
  {
    states, steps := Continue(before, done, Scale(0, 0), ScaledAway());
  }

  lemma UnassignPending(before: seq<State>, done: seq<Step>) returns (states: seq<State>, steps: seq<Step>)
    requires IsRun(before, done) && before[|done|] == ScaledAway()
    ensures Continues(before, done, Reconcile(0, [0]), Unassigned(), states, steps)
  {
    assert ActiveOf(ScaledAway().containers, 0) == {0};
    assert UnassignFor(ScaledAway().containers, [0]) == [UnassignMsg(0, 0, "")];
    states, steps := Continue(before, done, Reconcile(0, [0]), Unassigned());
  }

  lemma ReportStop(before: seq<State>, done: seq<Step>) returns (states: seq<State>, steps: seq<Step>)
    requires IsRun(before, done) && before[|done|] == Unassigned()
    ensures Continues(before, done, StopAssigned(0, true), StopReported(), states, steps)
  {
    states, steps := Continue(before, done, StopAssigned(0, true), StopReported());
  }

  lemma RecordStop(before: seq<State>, done: seq<Step>) returns (states: seq<State>, steps: seq<Step>)
    requires IsRun(before, done) && before[|done|] == StopReported()
    ensures Continues(before, done, RecordStatus(5), StopRecorded(), states, steps)
  {
    states, steps := Continue(before, done, RecordStatus(5), StopRecorded());
  }

  lemma ScaleBack(before: seq<State>, done: seq<Step>) returns (states: seq<State>, steps: seq<Step>)
    requires IsRun(before, done) && before[|done|] == StopRecorded()
    ensures Continues(before, done, Scale(0, 1), ScaledBack(), states, steps)
  {
    states, steps := Continue(before, done, Scale(0, 1), ScaledBack());
  }

  lemma RequestReplacement(before: seq<State>, done: seq<Step>) returns (states: seq<State>, steps: seq<Step>)
    requires IsRun(before, done) && before[|done|] == ScaledBack()
    ensures Continues(before, done, Reconcile(0, []), ReplacementRequested(), states, steps)
  {
    assert ActiveOf(ScaledBack().containers, 0) == {};
    assert Repeat(PLACE_WEB, 1) == [PLACE_WEB];
    states, steps := Continue(before, done, Reconcile(0, []), ReplacementRequested());
  }

  lemma PlaceReplacement(before: seq<State>, done: seq<Step>) returns (states: seq<State>, steps: seq<Step>)
    requires IsRun(before, done) && before[|done|] == ReplacementRequested()
    ensures Continues(before, done, Place(true), Replaced(), states, steps)
  {
    assert ActiveIn(ScaledBack().containers, ScaledBack().deployments, 0) == {};
    Places(ReplacementRequested());
    states, steps := Continue(before, done, Place(true), Replaced());
  }

  lemma StartLate(before: seq<State>, done: seq<Step>) returns (states: seq<State>, steps: seq<Step>)
    requires IsRun(before, done) && before[|done|] == Replaced()
    ensures Continues(before, done, START_FIRST, StartedLate(), states, steps)
    ensures LateStart(Replaced(), START_FIRST)
  {
    assert Replaced().log[0].assignment == Replaced().assigns[0].assignment;
    states, steps := Continue(before, done, START_FIRST, StartedLate());
  }

  lemma RecordLateStart(before: seq<State>, done: seq<Step>) returns (states: seq<State>, steps: seq<Step>)
    requires IsRun(before, done) && before[|done|] == StartedLate()
    ensures Continues(before, done, RecordStatus(7), Revived(), states, steps)
    ensures Revives(StartedLate(), RecordStatus(7)) && !Within(Revived())
  {
    assert ActiveIn(Revived().containers, Revived().deployments, 0) == {0, 1};
    assert OrgActive(Revived(), 0) == 2;
    states, steps := Continue(before, done, RecordStatus(7), Revived());
  }

  lemma StopBeforeStart(before: seq<State>, done: seq<Step>) returns (states: seq<State>, steps: seq<Step>)
    requires IsRun(before, done) && before[|done|] == Assigned(1)
    ensures IsRun(states, steps) && before <= states && states[|steps|] == StopRecorded()
    ensures steps == done + [Scale(0, 0), Reconcile(0, [0]), StopAssigned(0, true), RecordStatus(5)]
  {
    states, steps := ScaleAway(before, done);
    states, steps := UnassignPending(states, steps);
    states, steps := ReportStop(states, steps);
    states, steps := RecordStop(states, steps);
  }

  lemma Replace(before: seq<State>, done: seq<Step>) returns (states: seq<State>, steps: seq<Step>)
    requires IsRun(before, done) && before[|done|] == StopRecorded()
    ensures IsRun(states, steps) && before <= states && states[|steps|] == Replaced()
    ensures steps == done + [Scale(0, 1), Reconcile(0, []), Place(true)]
  {
    states, steps := ScaleBack(before, done);
    states, steps := RequestReplacement(states, steps);
    states, steps := PlaceReplacement(states, steps);
  }

  lemma StartAfterAll(before: seq<State>, done: seq<Step>) returns (states: seq<State>, steps: seq<Step>)
    requires IsRun(before, done) && before[|done|] == Replaced()
    ensures IsRun(states, steps) && before <= states && steps == done + [START_FIRST, RecordStatus(7)]
    ensures LateStart(Replaced(), START_FIRST)
    ensures Revives(states[|done| + 1], RecordStatus(7)) && !Within(states[|done| + 2])
  {
    states, steps := StartLate(before, done);
    states, steps := RecordLateStart(states, steps);
  }

  /**
    A pending container is scaled away and unassigned before its assignment was handled; its row is
    stopped, a replacement takes its place, and then it is started after all. The report of that start
    revives the stopped row, and the organization is over its ceiling of one.
  */
  lemma LateStartBreaksQuota() returns (states: seq<State>, steps: seq<Step>)
    ensures IsRun(states, steps) && Initial(states[0]) && Within(states[0])
    ensures steps == [DEPLOY, Place(true), Scale(0, 0), Reconcile(0, [0]), StopAssigned(0, true), RecordStatus(5),
                      Scale(0, 1), Reconcile(0, []), Place(true), START_FIRST, RecordStatus(7)]
    ensures LateStart(states[9], steps[9]) && Revives(states[10], steps[10]) && !Within(states[11])
  {
    states, steps := FirstDeploy(1);
    states, steps := FirstPlace(1, states, steps);
    states, steps := StopBeforeStart(states, steps);
    states, steps := Replace(states, steps);
    states, steps := StartAfterAll(states, steps);
    assert ActiveIn(Fresh(1).containers, Fresh(1).deployments, 0) == {};
  }

  // -- a tick ahead of the placements -------------------------------------------------

  function AskedTwice(): State { Requested(2).(placements := [PLACE_WEB, PLACE_WEB]) }

  function OnePlaced(): State { Assigned(2).(placements := [PLACE_WEB]) }

  function TwoPlaced(): State {
    Assigned(2).(containers := [PENDING, PENDING], assigns := [AssignMsg(0, 0, "web"), AssignMsg(0, 1, "web")])
  }

  lemma AskAgain(before: seq<State>, done: seq<Step>) returns (states: seq<State>, steps: seq<Step>)
    requires IsRun(before, done) && before[|done|] == Requested(2)
    ensures Continues(before, done, Reconcile(0, []), AskedTwice(), states, steps)
  {
    assert ActiveOf(Requested(2).containers, 0) == {};
    assert Repeat(PLACE_WEB, 1) == [PLACE_WEB];
    states, steps := Continue(before, done, Reconcile(0, []), AskedTwice());
  }

  lemma PlaceFirst(before: seq<State>, done: seq<Step>) returns (states: seq<State>, steps: seq<Step>)
    requires IsRun(before, done) && before[|done|] == AskedTwice()
    ensures Continues(before, done, Place(true), OnePlaced(), states, steps)
  {
    assert ActiveIn([], Deployed1(2).deployments, 0) == {};
    Places(AskedTwice());
    states, steps := Continue(before, done, Place(true), OnePlaced());
  }

  lemma PlaceSecond(before: seq<State>, done: seq<Step>) returns (states: seq<State>, steps: seq<Step>)
    requires IsRun(before, done) && before[|done|] == OnePlaced()
    ensures Continues(before, done, Place(true), TwoPlaced(), states, steps)
  {
    assert ActiveIn([PENDING], Deployed1(2).deployments, 0) == {0};
    Places(OnePlaced());
    states, steps := Continue(before, done, Place(true), TwoPlaced());
  }

  /**
    The deploy has asked for its container when a tick finds none active and asks again: one replica is
    desired, only a placement is in flight, and two containers come up.
  */
  lemma EarlyTickOverplaces() returns (states: seq<State>, steps: seq<Step>)
    ensures IsRun(states, steps) && Initial(states[0])
    ensures steps == [DEPLOY, Reconcile(0, []), Place(true), Place(true)]
    ensures Awaiting(states[1], 0) && PlacementsFor(states[1].placements, 0) == 1
    ensures IsTarget(states[4], 0) && Desired(states[4], 0) == 1 && |ActiveOf(states[4].containers, 0)| == 2
  {
    states, steps := FirstDeploy(2);
    states, steps := AskAgain(states, steps);
    states, steps := PlaceFirst(states, steps);
    states, steps := PlaceSecond(states, steps);
    assert [PLACE_WEB][..0] == [];
    assert ActiveOf(TwoPlaced().containers, 0) == {0, 1};
  }

  // -- an assignment delivered twice --------------------------------------------------

  const START_UNACKED := StartAssigned(0, Some(Started("r", Running)), false)

  const START_FAILED := StartAssigned(0, None, true)

  /** The container runs and is tracked; its assignment will be delivered again. */
  function Up(): State {
    Assigned(1).(log := [StatusMsg(0, "r", Running)], tracked := map[(0, 0) := Tracked("r", Running)])
  }

  /** The repeated start failed. */
  function RetryReported(): State {
    Up().(assigns := [], log := [StatusMsg(0, "r", Running), StatusMsg(0, "", Crashed)])
  }

  function RunRecorded(): State {
    RetryReported().(acked := 1, containers := [Container(0, 0, Some("r"), Running, Some(5), None)])
  }

  function CrashRecorded(): State {
    RetryReported().(acked := 2, containers := [Container(0, 0, Some("r"), Crashed, Some(5), Some(6))])
  }

  lemma StartUnacked(before: seq<State>, done: seq<Step>) returns (states: seq<State>, steps: seq<Step>)
    requires IsRun(before, done) && before[|done|] == Assigned(1)
    ensures Continues(before, done, START_UNACKED, Up(), states, steps)
  {
    states, steps := Continue(before, done, START_UNACKED, Up());
  }

  lemma StartFails(before: seq<State>, done: seq<Step>) returns (states: seq<State>, steps: seq<Step>)
    requires IsRun(before, done) && before[|done|] == Up()
    ensures Continues(before, done, START_FAILED, RetryReported(), states, steps)
    ensures FailedRetry(Up(), START_FAILED, 0)
  {
    states, steps := Continue(before, done, START_FAILED, RetryReported());
  }

  lemma RecordRun(before: seq<State>, done: seq<Step>) returns (states: seq<State>, steps: seq<Step>)
    requires IsRun(before, done) && before[|done|] == RetryReported()
    ensures Continues(before, done, RecordStatus(5), RunRecorded(), states, steps)
  {
    states, steps := Continue(before, done, RecordStatus(5), RunRecorded());
  }

  lemma RecordCrash(before: seq<State>, done: seq<Step>) returns (states: seq<State>, steps: seq<Step>)
    requires IsRun(before, done) && before[|done|] == RunRecorded()
    ensures Continues(before, done, RecordStatus(6), CrashRecorded(), states, steps)
  {
    states, steps := Continue(before, done, RecordStatus(6), CrashRecorded());
  }

  /**
    An assignment is delivered again while its container runs, and the repeated start fails. Once both
    reports are recorded the row says crashed and its worker says running; a poll that sees the
    container running corrects nothing, and the controller finds no replica active.
  */
  lemma FailedRetryDiverges() returns (states: seq<State>, steps: seq<Step>)
    ensures IsRun(states, steps) && Initial(states[0])
    ensures steps == [DEPLOY, Place(true), START_UNACKED, START_FAILED, RecordStatus(5), RecordStatus(6)]
    ensures FailedRetry(states[3], steps[3], 0)
    ensures var s := states[6];
            && s.acked == |s.log| && |s.containers| == 1 && s.containers[0].status == Crashed
            && s.tracked == map[(0, 0) := Tracked("r", Running)]
            && Apply(s, Poll(0, 0, Some(Running))) == s
            && IsTarget(s, 0) && ActiveOf(s.containers, 0) == {} && Desired(s, 0) == 1
  {
    states, steps := FirstDeploy(1);
    states, steps := FirstPlace(1, states, steps);
    states, steps := StartUnacked(states, steps);
    states, steps := StartFails(states, steps);
    states, steps := RecordRun(states, steps);
    states, steps := RecordCrash(states, steps);
  }
}
