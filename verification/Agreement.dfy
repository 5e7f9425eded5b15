/**
  What every step of the cluster keeps, and its main consequence: once the status stream
  is drained, the containers table holds the last report about every container. Whether that is
  also what the container's worker believes depends on redelivery, and the condition is exact.
*/
module Agreement {
  import opened Basics
  import opened Cluster

  /** The last status published for an assignment, or pending if none ever was. */
  ghost function LastStatus(log: seq<StatusMsg>, c: nat): Status {
    if log == [] then Pending
    else if log[|log| - 1].assignment == c then log[|log| - 1].status
    else LastStatus(log[..|log| - 1], c)
  }

  ghost predicate Reported(log: seq<StatusMsg>, c: nat) {
    exists i :: 0 <= i < |log| && log[i].assignment == c
  }

  lemma LastStatusAppend(log: seq<StatusMsg>, m: StatusMsg, c: nat)
    ensures LastStatus(log + [m], c) == if m.assignment == c then m.status else LastStatus(log, c)
  {
    assert (log + [m])[..|log|] == log;
  }

  lemma {:induction false} LastStatusUnreported(log: seq<StatusMsg>, c: nat)
    requires !Reported(log, c)
    ensures LastStatus(log, c) == Pending
  {
    if log != [] {
      assert log[|log| - 1].assignment != c;
      LastStatusUnreported(log[..|log| - 1], c);
    }
  }

  // -- the invariant ------------------------------------------------------------------

  /** Every message and map entry names an existing row and is addressed to that row's node. */
  ghost predicate Addressed(s: State) {
    && (forall i :: 0 <= i < |s.deployments| ==> s.deployments[i].app < |s.apps|)
    && (forall i :: 0 <= i < |s.apps| ==> s.apps[i].replicas >= 0)
    && (forall i :: 0 <= i < |s.containers| ==> s.containers[i].deployment < |s.deployments|)
    && (forall i :: 0 <= i < |s.placements| ==> s.placements[i].deployment < |s.deployments|)
    && (forall i :: 0 <= i < |s.assigns| ==>
          s.assigns[i].assignment < |s.containers| &&
          s.assigns[i].node == s.containers[s.assigns[i].assignment].node)
    && (forall i :: 0 <= i < |s.unassigns| ==>
          s.unassigns[i].assignment < |s.containers| &&
          s.unassigns[i].node == s.containers[s.unassigns[i].assignment].node)
    && (forall i :: 0 <= i < |s.log| ==> s.log[i].assignment < |s.containers|)
    && (forall n, c :: (n, c) in s.tracked ==> c < |s.containers| && n == s.containers[c].node)
    && s.acked <= |s.log|
  }

  /** No two queued assignments name the same row: a message may be delivered again, but is sent once. */
  ghost predicate SentOnce(s: State) {
    forall i, j :: 0 <= i < j < |s.assigns| ==> s.assigns[i].assignment != s.assigns[j].assignment
  }

  /** Each row holds the last status consumed for it. */
  ghost predicate RowsFollowLog(s: State) {
    s.acked <= |s.log| &&
    forall c :: 0 <= c < |s.containers| ==> s.containers[c].status == LastStatus(s.log[..s.acked], c)
  }

  ghost predicate Inv(s: State) {
    Addressed(s) && SentOnce(s) && RowsFollowLog(s)
  }

  lemma ReconcileKeepsAddressed(s: State, d: nat, chosen: seq<nat>)
    requires Addressed(s) && Enabled(s, Reconcile(d, chosen))
    ensures Addressed(Apply(s, Reconcile(d, chosen)))
  {
  }

  lemma PlaceKeepsAddressed(s: State, ack: bool)
    requires Addressed(s) && Accepts(s)
    ensures Addressed(Placed(s, ack))
  {
  }

  lemma AssignKeepsAddressed(s: State, k: nat, outcome: Option<Started>, ack: bool)
    requires Addressed(s) && k < |s.assigns|
    ensures Addressed(HandledAssign(s, k, outcome, ack))
  {
  }

  lemma UnassignKeepsAddressed(s: State, k: nat, ack: bool)
    requires Addressed(s) && k < |s.unassigns|
    ensures Addressed(HandledUnassign(s, k, ack))
  {
  }

  lemma PollKeepsAddressed(s: State, n: nat, c: nat, seen: Option<Status>)
    requires Addressed(s) && (n, c) in s.tracked
    ensures Addressed(Polled(s, n, c, seen))
  {
  }

  lemma RecordKeepsAddressed(s: State, now: int)
    requires Addressed(s) && s.acked < |s.log|
    ensures Addressed(Recorded(s, now))
  {
  }

  lemma DeployKeepsAddressed(s: State, a: nat, image: string, published: bool)
    requires Addressed(s) && a < |s.apps|
    ensures Addressed(Deployed(s, a, image, published))
  {
  }

  lemma StepKeepsAddressed(s: State, step: Step)
    requires Addressed(s) && Enabled(s, step)
    ensures Addressed(Apply(s, step))
  {
    match step
    case Reconcile(d, chosen) => ReconcileKeepsAddressed(s, d, chosen);
    case Place(ack) => if Accepts(s) { PlaceKeepsAddressed(s, ack); }
    case RecordStatus(now) => RecordKeepsAddressed(s, now);
    case StartAssigned(k, outcome, ack) => AssignKeepsAddressed(s, k, outcome, ack);
    case StopAssigned(k, ack) => UnassignKeepsAddressed(s, k, ack);
    case Poll(n, c, seen) => PollKeepsAddressed(s, n, c, seen);
    case Deploy(a, image, published) => DeployKeepsAddressed(s, a, image, published);
    case _ =>
  }

  lemma PlaceKeepsSentOnce(s: State, ack: bool)
    requires Addressed(s) && SentOnce(s) && Accepts(s)
    ensures SentOnce(Placed(s, ack))
  {
  }

  lemma AssignKeepsSentOnce(s: State, k: nat, outcome: Option<Started>, ack: bool)
    requires SentOnce(s) && k < |s.assigns|
    ensures SentOnce(HandledAssign(s, k, outcome, ack))
  {
  }

  lemma StepKeepsSentOnce(s: State, step: Step)
    requires Addressed(s) && SentOnce(s) && Enabled(s, step)
    ensures SentOnce(Apply(s, step))
  {
    match step
    case Place(ack) => if Accepts(s) { PlaceKeepsSentOnce(s, ack); }
    case StartAssigned(k, outcome, ack) => AssignKeepsSentOnce(s, k, outcome, ack);
    case _ =>
  }

  /** Neither rows nor the scheduler's position change; the stream may have grown. */
  ghost predicate RowsUntouched(s: State, t: State) {
    t.containers == s.containers && t.acked == s.acked <= |s.log| <= |t.log| && t.log[..|s.log|] == s.log
  }

  lemma SamePrefix(s: State, t: State)
    requires RowsUntouched(s, t)
    ensures t.log[..t.acked] == s.log[..s.acked]
  {
    assert t.log[..t.acked] == t.log[..|s.log|][..t.acked];
  }

  lemma OtherStepsLeaveRows(s: State, step: Step)
    requires s.acked <= |s.log| && Enabled(s, step) && !step.RecordStatus? && !(step.Place? && Accepts(s))
    ensures RowsUntouched(s, Apply(s, step))
  {
  }

  lemma RecordKeepsRows(s: State, now: int)
    requires Addressed(s) && RowsFollowLog(s) && s.acked < |s.log|
    ensures RowsFollowLog(Recorded(s, now))
  {
    var t := Recorded(s, now);
    assert s.log[..s.acked + 1] == s.log[..s.acked] + [s.log[s.acked]];
    forall c | 0 <= c < |t.containers| ensures t.containers[c].status == LastStatus(t.log[..t.acked], c) {
      LastStatusAppend(s.log[..s.acked], s.log[s.acked], c);
    }
  }

  lemma PlaceKeepsRows(s: State, ack: bool)
    requires Addressed(s) && RowsFollowLog(s) && Accepts(s)
    ensures RowsFollowLog(Placed(s, ack))
  {
    LastStatusUnreported(s.log[..s.acked], |s.containers|);
  }

  lemma StepKeepsRows(s: State, step: Step)
    requires Addressed(s) && RowsFollowLog(s) && Enabled(s, step)
    ensures RowsFollowLog(Apply(s, step))
  {
    if step.RecordStatus? {
      RecordKeepsRows(s, step.now);
    } else if step.Place? && Accepts(s) {
      PlaceKeepsRows(s, step.ack);
    } else {
      OtherStepsLeaveRows(s, step);
      SamePrefix(s, Apply(s, step));
    }
  }

  lemma StepKeepsInv(s: State, step: Step)
    requires Inv(s) && Enabled(s, step)
    ensures Inv(Apply(s, step))
  {
    StepKeepsAddressed(s, step);
    StepKeepsSentOnce(s, step);
    StepKeepsRows(s, step);
  }

  lemma {:induction false} RunKeepsInv(states: seq<State>, steps: seq<Step>, i: nat)
    requires IsRun(states, steps) && Inv(states[0]) && i < |states|
    ensures Inv(states[i])
  {
    if i > 0 {
      RunKeepsInv(states, steps, i - 1);
      StepKeepsInv(states[i - 1], steps[i - 1]);
    }
  }

  // -- what workers believe ------------------------------------------------------------

  /** The step starts c again, fails, and leaves an entry that does not say crashed. */
  ghost predicate FailedRetry(s: State, step: Step, c: nat) {
    && step.StartAssigned? && step.k < |s.assigns| && step.outcome.None? && s.assigns[step.k].assignment == c
    && var key := (s.assigns[step.k].node, c);
       key in s.tracked && !s.tracked[key].lastStatus.Crashed?
  }

  /** The step from s to t publishes a status about c. */
  ghost predicate ReportsOn(s: State, t: State, c: nat) {
    |s.log| < |t.log| && t.log[|s.log|].assignment == c
  }

  /** The worker's entry carries the last status published for c. */
  ghost predicate Believed(s: State, n: nat, c: nat)
    requires (n, c) in s.tracked
  {
    s.tracked[(n, c)].lastStatus == LastStatus(s.log, c)
  }

  /** What one step makes of an entry: a report decides it afresh, anything else leaves it as it was. */
  ghost predicate EntryFollows(s: State, step: Step, t: State, n: nat, c: nat) {
    (n, c) in t.tracked ==>
      if ReportsOn(s, t, c) then Believed(t, n, c) <==> !FailedRetry(s, step, c)
      else (n, c) in s.tracked && (Believed(t, n, c) <==> Believed(s, n, c))
  }

  lemma AssignEntry(s: State, k: nat, outcome: Option<Started>, ack: bool, n: nat, c: nat)
    requires Addressed(s) && k < |s.assigns|
    ensures EntryFollows(s, StartAssigned(k, outcome, ack), HandledAssign(s, k, outcome, ack), n, c)
  {
    LastStatusAppend(s.log, HandledAssign(s, k, outcome, ack).log[|s.log|], c);
  }

  lemma UnassignEntry(s: State, k: nat, ack: bool, n: nat, c: nat)
    requires Addressed(s) && k < |s.unassigns|
    ensures EntryFollows(s, StopAssigned(k, ack), HandledUnassign(s, k, ack), n, c)
  {
    LastStatusAppend(s.log, HandledUnassign(s, k, ack).log[|s.log|], c);
  }

  lemma PollEntry(s: State, at: nat, id: nat, seen: Option<Status>, n: nat, c: nat)
    requires Addressed(s) && (at, id) in s.tracked
    ensures EntryFollows(s, Poll(at, id, seen), Polled(s, at, id, seen), n, c)
  {
    var t := Polled(s, at, id, seen);
    if t != s {
      LastStatusAppend(s.log, t.log[|s.log|], c);
    }
  }

  lemma StepEntry(s: State, step: Step, t: State, n: nat, c: nat)
    requires Addressed(s) && Enabled(s, step) && t == Apply(s, step)
    ensures EntryFollows(s, step, t, n, c)
  {
    match step
    case StartAssigned(k, outcome, ack) => AssignEntry(s, k, outcome, ack, n, c);
    case StopAssigned(k, ack) => UnassignEntry(s, k, ack, n, c);
    case Poll(at, id, seen) => PollEntry(s, at, id, seen, n, c);
    case _ =>
  }

  /** The last report about c before state i came from a failed retry. */
  ghost predicate MisledBy(states: seq<State>, steps: seq<Step>, i: nat, c: nat)
    requires |states| == |steps| + 1 && i < |states|
  {
    i > 0 &&
    if ReportsOn(states[i - 1], states[i], c) then FailedRetry(states[i - 1], steps[i - 1], c)
    else MisledBy(states, steps, i - 1, c)
  }

  lemma {:induction false} BelievedSoFar(states: seq<State>, steps: seq<Step>, i: nat, n: nat, c: nat)
    requires |states| == |steps| + 1 && i < |states| && (n, c) in states[i].tracked && (n, c) !in states[0].tracked
    requires forall j :: 0 <= j < i ==> EntryFollows(states[j], steps[j], states[j + 1], n, c)
    ensures Believed(states[i], n, c) <==> !MisledBy(states, steps, i, c)
  {
    assert i > 0 && EntryFollows(states[i - 1], steps[i - 1], states[i - 1 + 1], n, c);
    if !ReportsOn(states[i - 1], states[i], c) {
      BelievedSoFar(states, steps, i - 1, n, c);
    }
  }

  /**
    A worker believes the last status published for a tracked container, except exactly when that
    report came from a redelivered assignment whose repeated start failed.
  */
  lemma BelievedIff(states: seq<State>, steps: seq<Step>, i: nat, n: nat, c: nat)
    requires IsRun(states, steps) && Initial(states[0]) && i < |states| && (n, c) in states[i].tracked
    ensures Believed(states[i], n, c) <==> !MisledBy(states, steps, i, c)
  {
    forall j | 0 <= j < i ensures EntryFollows(states[j], steps[j], states[j + 1], n, c) {
      RunKeepsInv(states, steps, j);
      StepEntry(states[j], steps[j], states[j + 1], n, c);
    }
    BelievedSoFar(states, steps, i, n, c);
  }

  // -- consequences over whole runs ---------------------------------------------------

  /**
    Whenever the scheduler has caught up with the status stream, every row carries the last status
    published for it; and a tracked container's row carries its worker's belief if and only if the
    last report about it did not come from a failed retry.
  */
  lemma DrainedRowsAgree(states: seq<State>, steps: seq<Step>, i: nat)
    requires IsRun(states, steps) && Initial(states[0]) && i < |states|
    requires states[i].acked == |states[i].log|
    ensures var s := states[i];
            && (forall c :: 0 <= c < |s.containers| ==> s.containers[c].status == LastStatus(s.log, c))
            && (forall n, c :: (n, c) in s.tracked ==>
                  c < |s.containers| && s.containers[c].node == n &&
                  (s.containers[c].status == s.tracked[(n, c)].lastStatus <==> !MisledBy(states, steps, i, c)))
  {
    RunKeepsInv(states, steps, i);
    var s := states[i];
    assert s.log[..s.acked] == s.log;
    forall n, c | (n, c) in s.tracked ensures Believed(s, n, c) <==> !MisledBy(states, steps, i, c) {
      BelievedIff(states, steps, i, n, c);
    }
  }

  // -- what is started ----------------------------------------------------------------

  ghost predicate PlacementMatches(deps: seq<Deployment>, m: PlacementMsg) {
    m.deployment < |deps| && m.image == deps[m.deployment].image
  }

  ghost predicate AssignMatches(deps: seq<Deployment>, rows: seq<Container>, m: AssignMsg) {
    m.assignment < |rows| && rows[m.assignment].deployment < |deps| &&
    m.image == deps[rows[m.assignment].deployment].image
  }

  /** Every request in flight carries the image of the deployment it is for. */
  ghost predicate ImagesMatch(s: State) {
    && (forall i :: 0 <= i < |s.placements| ==> PlacementMatches(s.deployments, s.placements[i]))
    && (forall i :: 0 <= i < |s.assigns| ==> AssignMatches(s.deployments, s.containers, s.assigns[i]))
  }

  lemma PlaceKeepsImages(s: State, ack: bool)
    requires ImagesMatch(s) && Accepts(s)
    ensures ImagesMatch(Placed(s, ack))
  {
    assert PlacementMatches(s.deployments, s.placements[0]);
  }

  lemma ReconcileKeepsImages(s: State, d: nat, chosen: seq<nat>)
    requires ImagesMatch(s) && Enabled(s, Reconcile(d, chosen))
    ensures ImagesMatch(Apply(s, Reconcile(d, chosen)))
  {
  }

  lemma DeployKeepsImages(s: State, a: nat, image: string, published: bool)
    requires ImagesMatch(s) && a < |s.apps|
    ensures ImagesMatch(Deployed(s, a, image, published))
  {
  }

  lemma StepKeepsImages(s: State, step: Step)
    requires ImagesMatch(s) && Enabled(s, step)
    ensures ImagesMatch(Apply(s, step))
  {
    match step
    case Reconcile(d, chosen) => ReconcileKeepsImages(s, d, chosen);
    case Place(ack) => if Accepts(s) { PlaceKeepsImages(s, ack); }
    case Deploy(a, image, published) => DeployKeepsImages(s, a, image, published);
    case _ =>
  }

  /** Workers are only ever asked to run the image recorded for the row's deployment, on the row's node. */
  lemma StartsDeployedImage(states: seq<State>, steps: seq<Step>, i: nat)
    requires IsRun(states, steps) && Initial(states[0]) && i < |steps| && steps[i].StartAssigned?
    ensures var s, m := states[i], states[i].assigns[steps[i].k];
            && m.assignment < |s.containers| && m.node == s.containers[m.assignment].node
            && s.containers[m.assignment].deployment < |s.deployments|
            && m.image == s.deployments[s.containers[m.assignment].deployment].image
  {
    var inv := (s: State) => Addressed(s) && ImagesMatch(s);
    var ok := (s: State, step: Step) => true;
    forall s, step | inv(s) && ok(s, step) && Enabled(s, step) ensures inv(Apply(s, step)) {
      StepKeepsAddressed(s, step);
      StepKeepsImages(s, step);
    }
    RunInduction(states, steps, 0, i, inv, ok);
  }

  /**
    What a worker says of a delivery: the runtime's id and status of what it started, a crash without an id
    if it could not, and stopped with the id it was given. It tracks exactly what it started.
  */
  lemma DeliveryReports(s: State, k: nat, outcome: Option<Started>, ack: bool)
    ensures k < |s.assigns| ==>
              var t, m := Apply(s, StartAssigned(k, outcome, ack)), s.assigns[k];
              if outcome.None? then t.log == s.log + [StatusMsg(m.assignment, "", Crashed)] && t.tracked == s.tracked
              else && t.log == s.log + [StatusMsg(m.assignment, outcome.value.runtimeId, outcome.value.status)]
                   && t.tracked == s.tracked[(m.node, m.assignment) := Tracked(outcome.value.runtimeId, outcome.value.status)]
    ensures k < |s.unassigns| ==>
              var t, m := Apply(s, StopAssigned(k, ack)), s.unassigns[k];
              t.log == s.log + [StatusMsg(m.assignment, m.runtimeId, Stopped)] && t.tracked == s.tracked - {(m.node, m.assignment)}
  {
  }

  // -- what rows remember -------------------------------------------------------------

  ghost predicate EverRunning(log: seq<StatusMsg>, c: nat) {
    exists i :: 0 <= i < |log| && log[i].assignment == c && log[i].status.Running?
  }

  ghost predicate EverEnded(log: seq<StatusMsg>, c: nat) {
    exists i :: 0 <= i < |log| && log[i].assignment == c && !Active(log[i].status)
  }

  /** The last runtime id published for an assignment; an empty one does not count. */
  ghost function LastRuntimeId(log: seq<StatusMsg>, c: nat): Option<string> {
    if log == [] then None
    else
      var m := log[|log| - 1];
      if m.assignment == c && m.runtimeId != "" then Some(m.runtimeId) else LastRuntimeId(log[..|log| - 1], c)
  }

  /** Start and stop stamps exist exactly for what was reported; the runtime id is the last one known. */
  ghost predicate RowRemembers(row: Container, log: seq<StatusMsg>, c: nat) {
    && (row.startedAt.Some? <==> EverRunning(log, c))
    && (row.stoppedAt.Some? <==> EverEnded(log, c))
    && row.runtimeId == LastRuntimeId(log, c)
  }

  ghost predicate RowsRemember(s: State) {
    s.acked <= |s.log| &&
    forall c :: 0 <= c < |s.containers| ==> RowRemembers(s.containers[c], s.log[..s.acked], c)
  }

  lemma RememberOneMore(row: Container, log: seq<StatusMsg>, m: StatusMsg, c: nat, now: int)
    requires RowRemembers(row, log, c)
    ensures RowRemembers(if m.assignment == c then Updated(row, m.status, m.runtimeId, now) else row, log + [m], c)
  {
    var longer := log + [m];
    assert longer[..|log|] == log && longer[|log|] == m;
    assert forall i :: 0 <= i < |log| ==> longer[i] == log[i];
  }

  lemma {:induction false} NothingToRemember(log: seq<StatusMsg>, c: nat)
    requires !Reported(log, c)
    ensures LastRuntimeId(log, c) == None
  {
    if log != [] {
      assert log[|log| - 1].assignment != c;
      NothingToRemember(log[..|log| - 1], c);
    }
  }

  lemma RecordKeepsRemember(s: State, now: int)
    requires Addressed(s) && RowsRemember(s) && s.acked < |s.log|
    ensures RowsRemember(Recorded(s, now))
  {
    var t := Recorded(s, now);
    assert s.log[..s.acked + 1] == s.log[..s.acked] + [s.log[s.acked]];
    forall c | 0 <= c < |t.containers| ensures RowRemembers(t.containers[c], t.log[..t.acked], c) {
      RememberOneMore(s.containers[c], s.log[..s.acked], s.log[s.acked], c, now);
    }
  }

  lemma PlaceKeepsRemember(s: State, ack: bool)
    requires Addressed(s) && RowsRemember(s) && Accepts(s)
    ensures RowsRemember(Placed(s, ack))
  {
    NothingToRemember(s.log[..s.acked], |s.containers|);
  }

  lemma StepKeepsRemember(s: State, step: Step)
    requires Addressed(s) && RowsRemember(s) && Enabled(s, step)
    ensures RowsRemember(Apply(s, step))
  {
    if step.RecordStatus? {
      RecordKeepsRemember(s, step.now);
    } else if step.Place? && Accepts(s) {
      PlaceKeepsRemember(s, step.ack);
    } else {
      OtherStepsLeaveRows(s, step);
      SamePrefix(s, Apply(s, step));
    }
  }

  /**
    In every state of a run, a row has a start stamp exactly if a running report was recorded for it,
    a stop stamp exactly if a terminal one was, and the last non-empty runtime id reported.
  */
  lemma RowsRememberReports(states: seq<State>, steps: seq<Step>, i: nat)
    requires IsRun(states, steps) && Initial(states[0]) && i < |states|
    ensures RowsRemember(states[i])
  {
    var inv := (s: State) => Addressed(s) && RowsRemember(s);
    var ok := (s: State, step: Step) => true;
    forall s, step | inv(s) && ok(s, step) && Enabled(s, step) ensures inv(Apply(s, step)) {
      StepKeepsAddressed(s, step);
      StepKeepsRemember(s, step);
    }
    RunInduction(states, steps, 0, i, inv, ok);
  }

  /** Stamps are set to the time of the report and keep that value: no later report, not even a revival, moves them. */
  lemma StampsNeverMove(s: State, step: Step, c: nat)
    requires Enabled(s, step) && c < |s.containers|
    ensures var old0, row := s.containers[c], Apply(s, step).containers[c];
            && (old0.startedAt.Some? ==> row.startedAt == old0.startedAt)
            && (old0.stoppedAt.Some? ==> row.stoppedAt == old0.stoppedAt)
            && (row.startedAt != old0.startedAt ==> step.RecordStatus? && row.startedAt == Some(step.now))
            && (row.stoppedAt != old0.stoppedAt ==> step.RecordStatus? && row.stoppedAt == Some(step.now))
            && row.deployment == old0.deployment && row.node == old0.node
  {
  }

  /**
    Polling publishes exactly on a change: unless a failed retry was the last report about the container,
    what a poll appends differs from the last status published, and a poll that sees that status appends nothing.
  */
  lemma PollPublishesOnlyChanges(states: seq<State>, steps: seq<Step>, i: nat)
    requires IsRun(states, steps) && Initial(states[0]) && i < |steps| && steps[i].Poll?
    requires !MisledBy(states, steps, i, steps[i].id)
    ensures var s, t, c := states[i], states[i + 1], steps[i].id;
            if steps[i].seen.None? || steps[i].seen.value == LastStatus(s.log, c) then t == s
            else |t.log| == |s.log| + 1 && t.log[..|s.log|] == s.log &&
                 t.log[|s.log|] == StatusMsg(c, s.tracked[(steps[i].node, c)].runtimeId, steps[i].seen.value) &&
                 t.log[|s.log|].status != LastStatus(s.log, c)
  {
    BelievedIff(states, steps, i, steps[i].node, steps[i].id);
  }
}
