/**
  A whole controller tick from an idle cluster: every target is reconciled once, then everything
  published is delivered, in any order. Delivery always ends; if the requests fit the quotas and
  some node is eligible, every target ends with exactly its desired number of containers, even if
  starts and stops are delivered repeatedly while workers poll and restart.
*/
module TickRound {
  import opened Basics
  import opened Cluster
  import opened Agreement
  import opened QuotaSafety
  import opened Convergence

  /** An acknowledged delivery in which the runtime starts what it is asked to start. */
  predicate Delivery(step: Step) {
    match step
    case Place(ack) => ack
    case RecordStatus(_) => true
    case StartAssigned(_, outcome, ack) => outcome.Some? && Active(outcome.value.status) && ack
    case StopAssigned(_, ack) => ack
    case _ => false
  }

  /**
    What a round admits after the tick: deliveries, starts and stops delivered once more, polls that
    find nothing dead or risen, worker restarts, and node changes that leave an eligible node.
  */
  ghost predicate Admitted(s: State, step: Step) {
    match step
    case Place(ack) => ack
    case RecordStatus(_) => true
    case StartAssigned(_, outcome, _) => outcome.Some? && Active(outcome.value.status)
    case StopAssigned(_, _) => true
    case Poll(n, c, seen) => QuietPoll(s, n, c, seen)
    case RestartWorker(_) => true
    case ChangeNodes(nodes) => exists i :: 0 <= i < |nodes| && Eligible(nodes[i])
    case _ => false
  }

  ghost predicate Idle(s: State) {
    s.placements == [] && s.assigns == [] && s.unassigns == [] && s.acked == |s.log|
  }

  // -- delivery ends ------------------------------------------------------------------

  /** Deliveries still to come: a placement causes at most an assignment and a status. */
  function Weight(s: State): int {
    3 * |s.placements| + 2 * |s.assigns| + 2 * |s.unassigns| + (|s.log| - s.acked)
  }

  lemma DeliveryShrinks(s: State, step: Step)
    requires Enabled(s, step) && Delivery(step)
    ensures Weight(Apply(s, step)) < Weight(s)
  {
  }

  /** A run of deliveries is no longer than the weight it starts from. */
  lemma {:induction false} DeliveryBounded(states: seq<State>, steps: seq<Step>, i: nat)
    requires IsRun(states, steps) && Inv(states[0]) && i < |states|
    requires forall j :: 0 <= j < |steps| ==> Delivery(steps[j])
    ensures i + Weight(states[i]) <= Weight(states[0]) && Weight(states[i]) >= 0
  {
    RunKeepsInv(states, steps, i);
    if i > 0 {
      DeliveryBounded(states, steps, i - 1);
      DeliveryShrinks(states[i - 1], steps[i - 1]);
    }
  }

  /** Delivery is stuck exactly when nothing is left to deliver. */
  lemma StuckIffIdle(s: State)
    requires Inv(s)
    ensures (forall step :: Delivery(step) ==> !Enabled(s, step)) <==> Idle(s)
  {
    if !Idle(s) {
      var step := if s.placements != [] then Place(true)
                  else if s.assigns != [] then StartAssigned(0, Some(Started("", Running)), true)
                  else if s.unassigns != [] then StopAssigned(0, true)
                  else RecordStatus(0);
      assert Delivery(step) && Enabled(s, step);
    }
  }

  // -- requested placements fit -------------------------------------------------------

  function OrgPlacements(q: seq<PlacementMsg>, deps: seq<Deployment>, org: nat): nat {
    if q == [] then 0
    else OrgPlacements(q[1..], deps, org) +
         if q[0].deployment < |deps| && deps[q[0].deployment].org == org then 1 else 0
  }

  /** The organization can take everything already active plus everything requested. */
  ghost predicate OrgFits(s: State, org: nat) {
    && org in s.quotas
    && OrgActive(s, org) + OrgPlacements(s.placements, s.deployments, org) <= s.quotas[org].maxContainers
    && OrgCpu(s.apps, org) <= s.quotas[org].maxCpu
    && OrgMemory(s.apps, org) <= s.quotas[org].maxMemory
  }

  ghost predicate Fits(s: State) {
    && (exists i :: 0 <= i < |s.nodes| && Eligible(s.nodes[i]))
    && forall i :: 0 <= i < |s.placements| && s.placements[i].deployment < |s.deployments| ==>
                     OrgFits(s, s.deployments[s.placements[i].deployment].org)
  }

  /** A terminal report on c is among the unread ones before position j. */
  ghost predicate EndsBefore(s: State, c: nat, j: nat) {
    exists i :: s.acked <= i < j && i < |s.log| && s.log[i].assignment == c && !Active(s.log[i].status)
  }

  /** The row of c is active and, as far as position j of the stream, nothing on the way says otherwise. */
  ghost predicate StaysActive(s: State, c: nat, j: nat) {
    c < |s.containers| && Active(s.containers[c].status) && !EndsBefore(s, c, j)
  }

  /** In a round, starts and active reports only confirm rows that are already active. */
  ghost predicate Calm(s: State) {
    && (forall i :: 0 <= i < |s.assigns| ==>
          StaysActive(s, s.assigns[i].assignment, |s.log|) && !Stopping(s.unassigns, s.assigns[i].assignment))
    && (forall j :: s.acked <= j < |s.log| && Active(s.log[j].status) ==> StaysActive(s, s.log[j].assignment, j))
  }

  /** Publishing m keeps calm if m is terminal and its start is not queued, or active and confirms the row. */
  lemma PublishKeepsCalm(s: State, t: State, m: StatusMsg)
    requires Calm(s) && s.acked <= |s.log| && t.containers == s.containers && t.acked == s.acked && t.log == s.log + [m]
    requires forall i :: 0 <= i < |t.assigns| ==> t.assigns[i] in s.assigns
    requires forall i :: 0 <= i < |t.unassigns| ==> t.unassigns[i] in s.unassigns
    requires if Active(m.status) then StaysActive(s, m.assignment, |s.log|) else !Starting(s.assigns, m.assignment)
    ensures Calm(t)
  {
    assert forall j :: 0 <= j < |s.log| ==> t.log[j] == s.log[j];
    assert t.log[|s.log|] == m;
  }

  /** If the last report on c is active, whatever is unread about c is. */
  lemma {:induction false} LastActiveStays(s: State, c: nat, n: nat)
    requires Inv(s) && Calm(s) && c < |s.containers| && s.acked <= n <= |s.log| && Active(LastStatus(s.log[..n], c))
    ensures StaysActive(s, c, n)
    decreases n
  {
    if n > s.acked {
      var m := s.log[n - 1];
      assert s.log[..n][..n - 1] == s.log[..n - 1];
      if m.assignment == c {
        assert StaysActive(s, c, n - 1);
      } else {
        LastActiveStays(s, c, n - 1);
      }
    }
  }

  /** Conversely, a row that stays active was last reported so. */
  lemma {:induction false} StaysLastActive(s: State, c: nat, n: nat)
    requires Inv(s) && s.acked <= n <= |s.log| && StaysActive(s, c, n)
    ensures Active(LastStatus(s.log[..n], c))
    decreases n
  {
    if n > s.acked {
      assert s.log[..n][..n - 1] == s.log[..n - 1];
      StaysLastActive(s, c, n - 1);
    }
  }

  lemma HandledMembers<T>(q: seq<T>, k: nat, ack: bool)
    requires k < |q|
    ensures forall i :: 0 <= i < |Handled(q, k, ack)| ==> Handled(q, k, ack)[i] in q
  {
  }

  lemma AssignKeepsCalm(s: State, k: nat, outcome: Option<Started>, ack: bool)
    requires Inv(s) && Calm(s) && k < |s.assigns| && outcome.Some? && Active(outcome.value.status)
    ensures Calm(HandledAssign(s, k, outcome, ack))
  {
    var t := HandledAssign(s, k, outcome, ack);
    HandledMembers(s.assigns, k, ack);
    PublishKeepsCalm(s, t, t.log[|s.log|]);
  }

  lemma UnassignKeepsCalm(s: State, k: nat, ack: bool)
    requires Inv(s) && Calm(s) && k < |s.unassigns|
    ensures Calm(HandledUnassign(s, k, ack))
  {
    var t := HandledUnassign(s, k, ack);
    HandledMembers(s.unassigns, k, ack);
    assert Stopping(s.unassigns, s.unassigns[k].assignment);
    PublishKeepsCalm(s, t, t.log[|s.log|]);
  }

  lemma PollKeepsCalm(s: State, n: nat, c: nat, seen: Option<Status>)
    requires Inv(s) && Calm(s) && (n, c) in s.tracked && QuietPoll(s, n, c, seen)
    ensures Calm(Polled(s, n, c, seen))
  {
    var t := Polled(s, n, c, seen);
    if t != s {
      assert s.log[..|s.log|] == s.log;
      if Active(seen.value) {
        LastActiveStays(s, c, |s.log|);
      } else if Starting(s.assigns, c) {
        StaysLastActive(s, c, |s.log|);
      }
      PublishKeepsCalm(s, t, t.log[|s.log|]);
    }
  }

  lemma RecordKeepsCalm(s: State, now: int)
    requires Inv(s) && Calm(s) && s.acked < |s.log|
    ensures Calm(Recorded(s, now))
  {
    var t := Recorded(s, now);
    forall c, j | s.acked < j && StaysActive(s, c, j) ensures StaysActive(t, c, j) {
    }
  }

  lemma PlaceKeepsCalm(s: State, ack: bool)
    requires Inv(s) && Calm(s) && Accepts(s)
    ensures Calm(Placed(s, ack))
  {
    var t := Placed(s, ack);
    FreshContainer(s, |s.containers|);
    forall c, j | StaysActive(s, c, j) ensures StaysActive(t, c, j) {
    }
    assert StaysActive(t, |s.containers|, |t.log|);
  }

  lemma HeadFits(s: State)
    requires Inv(s) && Fits(s) && s.placements != []
    ensures Accepts(s)
  {
    assert OrgFits(s, s.deployments[s.placements[0].deployment].org);
  }

  lemma PlaceKeepsFits(s: State)
    requires Inv(s) && Fits(s) && Accepts(s)
    ensures Fits(Placed(s, true))
  {
    var t := Placed(s, true);
    forall i | 0 <= i < |t.placements|
      ensures OrgFits(t, t.deployments[t.placements[i].deployment].org)
    {
      assert t.placements[i] == s.placements[i + 1];
      var org := s.deployments[s.placements[i + 1].deployment].org;
      assert OrgFits(s, org);
      AppendCount(s.containers, s.deployments, t.containers[|s.containers|], org);
    }
  }

  lemma RecordKeepsFits(s: State, now: int)
    requires Inv(s) && Fits(s) && Calm(s) && s.acked < |s.log|
    ensures Fits(Recorded(s, now))
  {
    var t := Recorded(s, now);
    var c := s.log[s.acked].assignment;
    assert Active(s.log[s.acked].status) ==> StaysActive(s, c, s.acked);
    forall i | 0 <= i < |t.placements|
      ensures OrgFits(t, t.deployments[t.placements[i].deployment].org)
    {
      var org := s.deployments[s.placements[i].deployment].org;
      assert OrgFits(s, org);
      UpdateCount(s.containers, s.deployments, c, t.containers[c], org);
    }
  }

  lemma FitsUnchanged(s: State, t: State)
    requires Fits(s) && t.apps == s.apps && t.deployments == s.deployments
    requires t.quotas == s.quotas && t.containers == s.containers && t.placements == s.placements
    requires exists i :: 0 <= i < |t.nodes| && Eligible(t.nodes[i])
    ensures Fits(t)
  {
    forall i | 0 <= i < |t.placements| && t.placements[i].deployment < |t.deployments|
      ensures OrgFits(t, t.deployments[t.placements[i].deployment].org)
    {
      assert OrgFits(s, s.deployments[s.placements[i].deployment].org);
    }
  }

  lemma AdmittedStaysCalm(s: State, step: Step)
    requires Inv(s) && Calm(s) && Enabled(s, step) && Admitted(s, step)
    ensures Calm(Apply(s, step))
  {
    match step
    case Place(ack) => if Accepts(s) { PlaceKeepsCalm(s, ack); }
    case RecordStatus(now) => RecordKeepsCalm(s, now);
    case StartAssigned(k, outcome, ack) => AssignKeepsCalm(s, k, outcome, ack);
    case StopAssigned(k, ack) => UnassignKeepsCalm(s, k, ack);
    case Poll(n, c, seen) => PollKeepsCalm(s, n, c, seen);
    case _ =>
  }

  lemma AdmittedStaysFit(s: State, step: Step)
    requires Inv(s) && Calm(s) && Fits(s) && Enabled(s, step) && Admitted(s, step)
    ensures Fits(Apply(s, step))
    ensures Apply(s, step).deployments == s.deployments && Apply(s, step).apps == s.apps
  {
    if step.Place? {
      HeadFits(s);
      PlaceKeepsFits(s);
    } else if step.RecordStatus? {
      RecordKeepsFits(s, step.now);
    } else {
      FitsUnchanged(s, Apply(s, step));
    }
  }

  /** While requests fit the quotas and no row is on its way back, every admitted step keeps it so. */
  lemma AdmittedKeepsFits(s: State, step: Step)
    requires Inv(s) && Fits(s) && Calm(s) && Enabled(s, step) && Admitted(s, step)
    ensures Fits(Apply(s, step)) && Calm(Apply(s, step))
    ensures Apply(s, step).deployments == s.deployments && Apply(s, step).apps == s.apps
  {
    AdmittedStaysCalm(s, step);
    AdmittedStaysFit(s, step);
  }

  // -- a tick and its deliveries ------------------------------------------------------

  /** The first `ticked` steps reconcile each target once, in some order. */
  ghost predicate IsTick(s: State, steps: seq<Step>, ticked: nat) {
    && ticked <= |steps|
    && (forall i :: 0 <= i < ticked ==> steps[i].Reconcile?)
    && (forall i, j :: 0 <= i < j < ticked ==> steps[i].d != steps[j].d)
    && (forall d :: IsTarget(s, d) ==> exists i :: 0 <= i < ticked && steps[i].d == d)
  }

  ghost predicate IsRound(states: seq<State>, steps: seq<Step>, ticked: nat) {
    && IsRun(states, steps)
    && Inv(states[0]) && Idle(states[0])
    && IsTick(states[0], steps, ticked)
    && (forall i :: ticked <= i < |steps| ==> Admitted(states[i], steps[i]))
    && Fits(states[ticked])
  }

  lemma TickKeepsCalm(s: State, step: Step)
    requires Inv(s) && s.assigns == [] && s.acked == |s.log| && Enabled(s, step) && step.Reconcile?
    ensures var t := Apply(s, step);
            t.assigns == [] && t.acked == |t.log| && t.deployments == s.deployments && t.apps == s.apps
    ensures Calm(Apply(s, step))
  {
  }

  lemma {:induction false} TickStaysCalm(states: seq<State>, steps: seq<Step>, i: nat)
    requires IsRun(states, steps) && Inv(states[0]) && Idle(states[0]) && i < |states|
    requires forall j :: 0 <= j < i ==> steps[j].Reconcile?
    ensures Calm(states[i]) && states[i].assigns == [] && states[i].acked == |states[i].log|
    ensures states[i].deployments == states[0].deployments && states[i].apps == states[0].apps
  {
    if i > 0 {
      TickStaysCalm(states, steps, i - 1);
      RunKeepsInv(states, steps, i - 1);
      TickKeepsCalm(states[i - 1], steps[i - 1]);
    }
  }

  lemma RoundStaysCalm(states: seq<State>, steps: seq<Step>, from: nat, i: nat)
    requires IsRun(states, steps) && Inv(states[0]) && from <= i < |states|
    requires Calm(states[from]) && Fits(states[from])
    requires forall j :: from <= j < i ==> Admitted(states[j], steps[j])
    ensures Calm(states[i]) && Fits(states[i])
    ensures states[i].deployments == states[from].deployments && states[i].apps == states[from].apps
  {
    var start := states[from];
    var inv := (s: State) => Inv(s) && Calm(s) && Fits(s) && s.deployments == start.deployments && s.apps == start.apps;
    var ok := (s: State, step: Step) => Admitted(s, step);
    forall s, step | inv(s) && ok(s, step) && Enabled(s, step) ensures inv(Apply(s, step)) {
      StepKeepsInv(s, step);
      AdmittedKeepsFits(s, step);
    }
    RunKeepsInv(states, steps, from);
    RunInduction(states, steps, from, i, inv, ok);
  }

  lemma {:induction false} SettledUntilItsTurn(states: seq<State>, steps: seq<Step>, ticked: nat, i: nat, d: nat)
    requires IsRound(states, steps, ticked) && i <= ticked
    requires forall j :: 0 <= j < i ==> steps[j].d != d
    ensures Settled(states[i], d)
  {
    if i > 0 {
      SettledUntilItsTurn(states, steps, ticked, i - 1, d);
      RunKeepsInv(states, steps, i - 1);
      SettledPromise(states[i - 1], d);
      OtherReconcileConserves(states[i - 1], steps[i - 1].d, steps[i - 1].chosen, d);
    }
  }

  lemma RoundUndisturbed(states: seq<State>, steps: seq<Step>, ticked: nat, j: nat, d: nat)
    requires IsRound(states, steps, ticked) && j < |steps|
    requires steps[j].Reconcile? ==> steps[j].d != d
    ensures Undisturbed(states[j], steps[j], d)
  {
    if j >= ticked && steps[j].Place? {
      TickStaysCalm(states, steps, ticked);
      RoundStaysCalm(states, steps, ticked, j);
      RunKeepsInv(states, steps, j);
      HeadFits(states[j]);
    }
  }

  /**
    One tick and the delivery of everything it causes, with any admitted steps in between, bring every
    target to its desired number of active containers; the next tick publishes nothing for any of them.
  */
  lemma TickConverges(states: seq<State>, steps: seq<Step>, ticked: nat, d: nat)
    requires IsRound(states, steps, ticked) && Idle(states[|steps|]) && IsTarget(states[0], d)
    ensures var last := states[|steps|];
            IsTarget(last, d) && |ActiveOf(last.containers, d)| == Desired(last, d) == Desired(states[0], d)
    ensures forall chosen :: Enabled(states[|steps|], Reconcile(d, chosen)) ==>
                               Apply(states[|steps|], Reconcile(d, chosen)) == states[|steps|]
  {
    var at :| 0 <= at < ticked && steps[at].d == d;
    SettledUntilItsTurn(states, steps, ticked, at, d);
    forall j | at < j < |steps| ensures Undisturbed(states[j], steps[j], d) {
      RoundUndisturbed(states, steps, ticked, j, d);
    }
    TickStaysCalm(states, steps, ticked);
    RoundStaysCalm(states, steps, ticked, |steps|);
    assert Settled(states[|steps|], d);
    RoundConverges(states, steps, at, |steps|, d);
  }
}
