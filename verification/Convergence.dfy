/**
  The controller's promise: after one reconcile decision for a deployment and the delivery of
  everything it caused, in any order and interleaved with any traffic of other deployments,
  exactly the desired number of containers is active and the next decision publishes nothing.

  The argument is a conserved quantity. A container survives when, once every queue is drained,
  its row will be active; placements requested plus survivors never change during a round.
*/
module Convergence {
  import opened Basics
  import opened Cluster
  import opened Agreement

  function PlacementsFor(q: seq<PlacementMsg>, d: nat): nat {
    if q == [] then 0 else PlacementsFor(q[..|q| - 1], d) + if q[|q| - 1].deployment == d then 1 else 0
  }

  ghost predicate Starting(q: seq<AssignMsg>, c: nat) {
    exists i :: 0 <= i < |q| && q[i].assignment == c
  }

  ghost predicate Stopping(q: seq<UnassignMsg>, c: nat) {
    exists i :: 0 <= i < |q| && q[i].assignment == c
  }

  /** The container's row will be active once everything in flight has been delivered. */
  ghost predicate Survives(s: State, c: nat) {
    !Stopping(s.unassigns, c) && (Starting(s.assigns, c) || Active(LastStatus(s.log, c)))
  }

  ghost function Survivors(s: State, d: nat): set<nat> {
    set c | 0 <= c < |s.containers| && s.containers[c].deployment == d && Survives(s, c)
  }

  ghost function Promised(s: State, d: nat): nat {
    PlacementsFor(s.placements, d) + |Survivors(s, d)|
  }

  /** No container of d is both waiting to be started and waiting to be stopped. */
  ghost predicate NoRace(s: State, d: nat) {
    forall c :: 0 <= c < |s.containers| && s.containers[c].deployment == d ==>
                  !(Starting(s.assigns, c) && Stopping(s.unassigns, c))
  }

  /** Nothing about d is in flight. */
  ghost predicate Settled(s: State, d: nat) {
    && PlacementsFor(s.placements, d) == 0
    && s.acked <= |s.log|
    && (forall c :: 0 <= c < |s.containers| && s.containers[c].deployment == d ==>
          !Starting(s.assigns, c) && !Stopping(s.unassigns, c))
    && (forall i :: s.acked <= i < |s.log| && s.log[i].assignment < |s.containers| ==>
          s.containers[s.log[i].assignment].deployment != d)
  }

  /** Only placements and starts of rows that already count as active are in flight for d. */
  ghost predicate Awaiting(s: State, d: nat) {
    && s.acked <= |s.log|
    && (forall c :: 0 <= c < |s.containers| && s.containers[c].deployment == d ==>
          !Stopping(s.unassigns, c) && (Starting(s.assigns, c) ==> Active(s.containers[c].status)))
    && (forall i :: s.acked <= i < |s.log| && s.log[i].assignment < |s.containers| ==>
          s.containers[s.log[i].assignment].deployment != d)
  }

  /** A poll that says nothing, or says active exactly if the last report did. */
  ghost predicate QuietPoll(s: State, n: nat, c: nat, seen: Option<Status>) {
    (n, c) in s.tracked && seen.Some? && seen.value != s.tracked[(n, c)].lastStatus ==>
      Active(seen.value) == Active(LastStatus(s.log, c))
  }

  /**
    The steps a round allows: d's placements are accepted and not delivered again, its containers start,
    be it repeatedly, and do not crash. Stops may be delivered again, and workers may restart.
  */
  ghost predicate Undisturbed(s: State, step: Step, d: nat) {
    match step
    case Reconcile(e, _) => e != d
    case Place(ack) => s.placements != [] && s.placements[0].deployment == d ==> Accepts(s) && ack
    case StartAssigned(k, outcome, _) =>
      k < |s.assigns| && s.assigns[k].assignment < |s.containers| &&
      s.containers[s.assigns[k].assignment].deployment == d ==>
        outcome.Some? && Active(outcome.value.status)
    case Poll(n, c, seen) =>
      c < |s.containers| && s.containers[c].deployment == d ==> QuietPoll(s, n, c, seen)
    case Scale(a, _) => d < |s.deployments| ==> s.deployments[d].app != a
    case _ => true
  }

  // -- counting placements ------------------------------------------------------------

  lemma {:induction false} PlacementsConcat(p: seq<PlacementMsg>, q: seq<PlacementMsg>, d: nat)
    ensures PlacementsFor(p + q, d) == PlacementsFor(p, d) + PlacementsFor(q, d)
  {
    if q == [] {
      assert p + q == p;
    } else {
      assert (p + q)[..|p + q| - 1] == p + q[..|q| - 1];
      PlacementsConcat(p, q[..|q| - 1], d);
    }
  }

  lemma PlacementsHead(q: seq<PlacementMsg>, d: nat)
    requires q != []
    ensures PlacementsFor(q, d) == PlacementsFor(q[1..], d) + if q[0].deployment == d then 1 else 0
  {
    assert q == [q[0]] + q[1..];
    PlacementsConcat([q[0]], q[1..], d);
    assert [q[0]][..0] == [];
  }

  lemma {:induction false} PlacementsRepeat(m: PlacementMsg, k: nat, d: nat)
    ensures PlacementsFor(Repeat(m, k), d) == if m.deployment == d then k else 0
  {
    if k > 0 {
      assert Repeat(m, k)[..k - 1] == Repeat(m, k - 1);
      PlacementsRepeat(m, k - 1, d);
    }
  }

  // -- survival of one container under each queue operation ---------------------------

  lemma StartingAppend(q: seq<AssignMsg>, m: AssignMsg, c: nat)
    ensures Starting(q + [m], c) <==> Starting(q, c) || m.assignment == c
  {
    if Starting(q, c) {
      var i :| 0 <= i < |q| && q[i].assignment == c;
      assert (q + [m])[i].assignment == c;
    }
    assert (q + [m])[|q|] == m;
  }

  lemma StartingHandled(q: seq<AssignMsg>, k: nat, ack: bool, c: nat)
    requires k < |q|
    requires forall i, j :: 0 <= i < j < |q| ==> q[i].assignment != q[j].assignment
    ensures Starting(Handled(q, k, ack), c) <==> Starting(q, c) && !(ack && q[k].assignment == c)
  {
    if ack && Starting(q, c) && q[k].assignment != c {
      var i :| 0 <= i < |q| && q[i].assignment == c;
      assert Without(q, k)[if i < k then i else i - 1].assignment == c;
    }
  }

  lemma StoppingAppend(q: seq<UnassignMsg>, r: seq<UnassignMsg>, c: nat)
    ensures Stopping(q + r, c) <==> Stopping(q, c) || Stopping(r, c)
  {
    if Stopping(q, c) {
      var i :| 0 <= i < |q| && q[i].assignment == c;
      assert (q + r)[i].assignment == c;
    }
    if Stopping(r, c) {
      var i :| 0 <= i < |r| && r[i].assignment == c;
      assert (q + r)[|q| + i].assignment == c;
    }
  }

  lemma StoppingHandled(q: seq<UnassignMsg>, k: nat, ack: bool, c: nat)
    requires k < |q|
    ensures Stopping(q, c) ==> q[k].assignment == c || Stopping(Handled(q, k, ack), c)
    ensures Stopping(Handled(q, k, ack), c) ==> Stopping(q, c)
  {
    if ack && Stopping(q, c) && q[k].assignment != c {
      var i :| 0 <= i < |q| && q[i].assignment == c;
      assert Without(q, k)[if i < k then i else i - 1].assignment == c;
    }
  }

  // -- each step conserves the promise ------------------------------------------------

  ghost predicate Steady(s: State, d: nat) { Inv(s) && NoRace(s, d) }

  lemma SameSurvivors(s: State, t: State, d: nat)
    requires t.containers == s.containers && t.placements == s.placements
    requires forall c :: 0 <= c < |s.containers| && s.containers[c].deployment == d ==>
                           (Survives(t, c) <==> Survives(s, c))
    ensures Promised(t, d) == Promised(s, d)
  {
    assert Survivors(t, d) == Survivors(s, d);
  }

  lemma AssignConserves(s: State, k: nat, outcome: Option<Started>, ack: bool, d: nat)
    requires Steady(s, d) && k < |s.assigns| && Undisturbed(s, StartAssigned(k, outcome, ack), d)
    ensures Promised(HandledAssign(s, k, outcome, ack), d) == Promised(s, d)
    ensures NoRace(HandledAssign(s, k, outcome, ack), d)
  {
    var t := HandledAssign(s, k, outcome, ack);
    forall c | 0 <= c < |s.containers| && s.containers[c].deployment == d
      ensures Survives(t, c) <==> Survives(s, c)
      ensures !(Starting(t.assigns, c) && Stopping(t.unassigns, c))
    {
      StartingHandled(s.assigns, k, ack, c);
      LastStatusAppend(s.log, t.log[|s.log|], c);
      assert s.assigns[k].assignment == c ==> Starting(s.assigns, c);
    }
    SameSurvivors(s, t, d);
  }

  lemma UnassignConserves(s: State, k: nat, ack: bool, d: nat)
    requires Steady(s, d) && k < |s.unassigns|
    ensures Promised(HandledUnassign(s, k, ack), d) == Promised(s, d)
    ensures NoRace(HandledUnassign(s, k, ack), d)
  {
    var t := HandledUnassign(s, k, ack);
    forall c | 0 <= c < |s.containers| && s.containers[c].deployment == d
      ensures Survives(t, c) <==> Survives(s, c)
      ensures !(Starting(t.assigns, c) && Stopping(t.unassigns, c))
    {
      StoppingHandled(s.unassigns, k, ack, c);
      LastStatusAppend(s.log, t.log[|s.log|], c);
      assert s.unassigns[k].assignment == c ==> Stopping(s.unassigns, c);
    }
    SameSurvivors(s, t, d);
  }

  lemma PollConserves(s: State, n: nat, id: nat, seen: Option<Status>, d: nat)
    requires Steady(s, d) && (n, id) in s.tracked && Undisturbed(s, Poll(n, id, seen), d)
    ensures Promised(Polled(s, n, id, seen), d) == Promised(s, d)
    ensures NoRace(Polled(s, n, id, seen), d)
  {
    var t := Polled(s, n, id, seen);
    if t != s {
      forall c | 0 <= c < |s.containers| && s.containers[c].deployment == d
        ensures Survives(t, c) <==> Survives(s, c)
      {
        LastStatusAppend(s.log, t.log[|s.log|], c);
      }
      SameSurvivors(s, t, d);
    }
  }

  lemma RecordConserves(s: State, now: int, d: nat)
    requires Steady(s, d) && s.acked < |s.log|
    ensures Promised(Recorded(s, now), d) == Promised(s, d)
    ensures NoRace(Recorded(s, now), d)
  {
    var t := Recorded(s, now);
    assert forall c :: 0 <= c < |s.containers| ==> t.containers[c].deployment == s.containers[c].deployment;
    assert Survivors(t, d) == Survivors(s, d);
  }

  lemma FreshContainer(s: State, c: nat)
    requires Addressed(s) && c == |s.containers|
    ensures !Stopping(s.unassigns, c) && !Starting(s.assigns, c)
  {
  }

  lemma PlaceSurvives(s: State, ack: bool, c: nat)
    requires Inv(s) && Accepts(s) && c <= |s.containers|
    ensures var t := Placed(s, ack);
            && (Starting(t.assigns, c) <==> Starting(s.assigns, c) || c == |s.containers|)
            && (Survives(t, c) <==> Survives(s, c) || c == |s.containers|)
  {
    var t := Placed(s, ack);
    StartingAppend(s.assigns, t.assigns[|s.assigns|], c);
    FreshContainer(s, |s.containers|);
  }

  lemma PlaceNoRace(s: State, ack: bool, d: nat)
    requires Steady(s, d) && Accepts(s)
    ensures NoRace(Placed(s, ack), d)
  {
    FreshContainer(s, |s.containers|);
    forall c | 0 <= c <= |s.containers|
      ensures Starting(Placed(s, ack).assigns, c) <==> Starting(s.assigns, c) || c == |s.containers|
    {
      PlaceSurvives(s, ack, c);
    }
  }

  /** A placement adds one survivor to its own deployment. */
  lemma PlaceSurvivors(s: State, ack: bool, d: nat)
    requires Inv(s) && Accepts(s)
    ensures |Survivors(Placed(s, ack), d)| == |Survivors(s, d)| + if s.placements[0].deployment == d then 1 else 0
  {
    var t := Placed(s, ack);
    var newest := |s.containers|;
    forall c | 0 <= c <= newest ensures Survives(t, c) <==> Survives(s, c) || c == newest {
      PlaceSurvives(s, ack, c);
    }
    assert Survivors(t, d) == Survivors(s, d) + if s.placements[0].deployment == d then {newest} else {};
    assert newest !in Survivors(s, d);
  }

  lemma PlaceConserves(s: State, ack: bool, d: nat)
    requires Steady(s, d) && Accepts(s) && Undisturbed(s, Place(ack), d)
    ensures Promised(Placed(s, ack), d) == Promised(s, d)
    ensures NoRace(Placed(s, ack), d)
  {
    PlaceNoRace(s, ack, d);
    PlaceSurvivors(s, ack, d);
    PlacementsHead(s.placements, d);
  }

  lemma OtherScaleDownConserves(s: State, e: nat, chosen: seq<nat>, t: State, d: nat)
    requires Steady(s, d) && e != d && t == s.(unassigns := t.unassigns)
    requires forall i :: 0 <= i < |chosen| ==> chosen[i] < |s.containers| && s.containers[chosen[i]].deployment == e
    requires t.unassigns == s.unassigns + UnassignFor(s.containers, chosen)
    ensures Promised(t, d) == Promised(s, d) && NoRace(t, d) && (Settled(s, d) ==> Settled(t, d))
  {
    forall c | 0 <= c < |s.containers| && s.containers[c].deployment == d
      ensures Stopping(t.unassigns, c) <==> Stopping(s.unassigns, c)
    {
      StoppingAppend(s.unassigns, UnassignFor(s.containers, chosen), c);
    }
    SameSurvivors(s, t, d);
  }

  lemma OtherScaleUpConserves(s: State, m: PlacementMsg, k: nat, t: State, d: nat)
    requires Steady(s, d) && m.deployment != d && t == s.(placements := s.placements + Repeat(m, k))
    ensures Promised(t, d) == Promised(s, d) && NoRace(t, d) && (Settled(s, d) ==> Settled(t, d))
  {
    PlacementsConcat(s.placements, Repeat(m, k), d);
    PlacementsRepeat(m, k, d);
    assert Survivors(t, d) == Survivors(s, d);
  }

  /** A decision for another deployment leaves d's promise alone. */
  lemma OtherReconcileConserves(s: State, e: nat, chosen: seq<nat>, d: nat)
    requires Steady(s, d) && Enabled(s, Reconcile(e, chosen)) && e != d
    ensures var t := Apply(s, Reconcile(e, chosen));
            Promised(t, d) == Promised(s, d) && NoRace(t, d) && (Settled(s, d) ==> Settled(t, d))
  {
    var t := Apply(s, Reconcile(e, chosen));
    var active, desired := |ActiveOf(s.containers, e)|, Desired(s, e);
    if active > desired {
      assert forall i :: 0 <= i < |chosen| ==> chosen[i] in ActiveOf(s.containers, e);
      OtherScaleDownConserves(s, e, chosen, t, d);
    } else if active < desired {
      OtherScaleUpConserves(s, PlacementMsg(e, s.deployments[e].image), desired - active, t, d);
    }
  }

  lemma DeployConserves(s: State, a: nat, image: string, published: bool, d: nat)
    requires Steady(s, d) && a < |s.apps| && d < |s.deployments|
    ensures Promised(Deployed(s, a, image, published), d) == Promised(s, d)
    ensures NoRace(Deployed(s, a, image, published), d)
  {
    var t := Deployed(s, a, image, published);
    if published {
      PlacementsConcat(s.placements, [t.placements[|s.placements|]], d);
      assert [t.placements[|s.placements|]][..0] == [];
    }
    assert Survivors(t, d) == Survivors(s, d);
  }

  lemma StepConserves(s: State, step: Step, d: nat)
    requires Steady(s, d) && Enabled(s, step) && Undisturbed(s, step, d) && d < |s.deployments|
    ensures Promised(Apply(s, step), d) == Promised(s, d)
    ensures Steady(Apply(s, step), d)
  {
    StepKeepsInv(s, step);
    match step
    case Reconcile(e, chosen) => OtherReconcileConserves(s, e, chosen, d);
    case Place(ack) =>
      if Accepts(s) {
        PlaceConserves(s, ack, d);
      } else {
        PlacementsHead(s.placements, d);
        assert Survivors(Apply(s, step), d) == Survivors(s, d);
      }
    case RecordStatus(now) => RecordConserves(s, now, d);
    case StartAssigned(k, outcome, ack) => AssignConserves(s, k, outcome, ack, d);
    case StopAssigned(k, ack) => UnassignConserves(s, k, ack, d);
    case Poll(n, c, seen) => PollConserves(s, n, c, seen, d);
    case Scale(_, _) => assert Survivors(Apply(s, step), d) == Survivors(s, d);
    case ChangeNodes(_) => assert Survivors(Apply(s, step), d) == Survivors(s, d);
    case RestartWorker(_) => assert Survivors(Apply(s, step), d) == Survivors(s, d);
    case Deploy(a, image, published) => DeployConserves(s, a, image, published, d);
  }

  // -- the two ends of a round --------------------------------------------------------

  lemma {:induction false} DrainedLastStatus(log: seq<StatusMsg>, k: nat, c: nat)
    requires k <= |log| && forall i :: k <= i < |log| ==> log[i].assignment != c
    ensures LastStatus(log, c) == LastStatus(log[..k], c)
    decreases |log|
  {
    if k < |log| {
      DrainedLastStatus(log[..|log| - 1], k, c);
      assert log[..|log| - 1][..k] == log[..k];
    } else {
      assert log[..k] == log;
    }
  }

  /** While only placements are in flight, what is promised is what is active and what is requested. */
  lemma AwaitingPromise(s: State, d: nat)
    requires Inv(s) && Awaiting(s, d)
    ensures NoRace(s, d)
    ensures Survivors(s, d) == ActiveOf(s.containers, d)
    ensures Promised(s, d) == |ActiveOf(s.containers, d)| + PlacementsFor(s.placements, d)
  {
    forall c | 0 <= c < |s.containers| && s.containers[c].deployment == d
      ensures Survives(s, c) <==> Active(s.containers[c].status)
    {
      DrainedLastStatus(s.log, s.acked, c);
    }
  }

  /** With nothing in flight, what is promised is what is active. */
  lemma SettledPromise(s: State, d: nat)
    requires Inv(s) && Settled(s, d)
    ensures NoRace(s, d)
    ensures Survivors(s, d) == ActiveOf(s.containers, d)
    ensures Promised(s, d) == |ActiveOf(s.containers, d)|
  {
    AwaitingPromise(s, d);
  }

  lemma {:induction false} Removed(a: set<nat>, chosen: seq<nat>)
    requires Distinct(chosen) && forall i :: 0 <= i < |chosen| ==> chosen[i] in a
    ensures |a - Members(chosen)| == |a| - |chosen|
  {
    DistinctSize(chosen);
    var gone := Members(chosen);
    assert gone <= a;
    assert a == (a - gone) + gone;
  }

  lemma ScaleDownPromise(s: State, d: nat, chosen: seq<nat>)
    requires Inv(s) && Settled(s, d) && Enabled(s, Reconcile(d, chosen))
    requires |ActiveOf(s.containers, d)| > Desired(s, d)
    ensures var t := Apply(s, Reconcile(d, chosen)); NoRace(t, d) && Promised(t, d) == Desired(s, d)
  {
    var t := Apply(s, Reconcile(d, chosen));
    var active := ActiveOf(s.containers, d);
    var gone := Members(chosen);
    SettledPromise(s, d);
    forall c | 0 <= c < |s.containers| && s.containers[c].deployment == d
      ensures Survives(t, c) <==> c in active - gone
    {
      var sent := UnassignFor(s.containers, chosen);
      StoppingAppend(s.unassigns, sent, c);
      if c in gone {
        var i :| 0 <= i < |chosen| && chosen[i] == c;
        assert sent[i].assignment == c;
      }
      assert c in active <==> c in Survivors(s, d);
    }
    assert Survivors(t, d) == active - gone;
    Removed(active, chosen);
  }

  /** A decision to scale up adds exactly the shortfall to what is promised. */
  lemma ScaleUpPromise(s: State, d: nat, chosen: seq<nat>)
    requires Inv(s) && Enabled(s, Reconcile(d, chosen)) && |ActiveOf(s.containers, d)| < Desired(s, d)
    ensures var t := Apply(s, Reconcile(d, chosen));
            && Promised(t, d) == Promised(s, d) + Desired(s, d) - |ActiveOf(s.containers, d)|
            && t == s.(placements := t.placements)
  {
    var t := Apply(s, Reconcile(d, chosen));
    var m, k := PlacementMsg(d, s.deployments[d].image), Desired(s, d) - |ActiveOf(s.containers, d)|;
    PlacementsConcat(s.placements, Repeat(m, k), d);
    PlacementsRepeat(m, k, d);
    assert Survivors(t, d) == Survivors(s, d);
  }

  /** The decision promises exactly the desired number of replicas. */
  lemma ReconcilePromises(s: State, d: nat, chosen: seq<nat>)
    requires Inv(s) && Settled(s, d) && Enabled(s, Reconcile(d, chosen))
    ensures var t := Apply(s, Reconcile(d, chosen)); NoRace(t, d) && Promised(t, d) == Desired(s, d)
  {
    var t := Apply(s, Reconcile(d, chosen));
    var active := |ActiveOf(s.containers, d)|;
    SettledPromise(s, d);
    if active > Desired(s, d) {
      ScaleDownPromise(s, d, chosen);
    } else if active < Desired(s, d) {
      ScaleUpPromise(s, d, chosen);
    }
  }

  // -- convergence --------------------------------------------------------------------

  lemma StepKeepsDesired(s: State, step: Step, d: nat)
    requires Addressed(s) && Enabled(s, step) && d < |s.deployments|
    requires step.Scale? ==> s.deployments[d].app != step.app
    ensures var t := Apply(s, step);
            d < |t.deployments| && s.deployments[d] == t.deployments[d] &&
            s.deployments[d].app < |t.apps| && Desired(t, d) == Desired(s, d)
  {
  }

  /** Nothing in flight contradicts itself, and d is promised and wants the given counts. */
  ghost predicate Promises(s: State, d: nat, promised: int, desired: int) {
    && Steady(s, d) && Promised(s, d) == promised
    && d < |s.deployments| && Desired(s, d) == desired
  }

  lemma QuietStep(s: State, step: Step, t: State, d: nat, promised: int, desired: int)
    requires Promises(s, d, promised, desired) && Enabled(s, step) && Undisturbed(s, step, d) && t == Apply(s, step)
    ensures Promises(t, d, promised, desired)
  {
    StepConserves(s, step, d);
    StepKeepsDesired(s, step, d);
  }

  /** The quiet part of a run conserves the promise and the desired count. */
  lemma RoundConserves(
    states: seq<State>, steps: seq<Step>, from: nat, i: nat, d: nat, promised: int, desired: int)
    requires IsRun(states, steps) && from <= i < |states|
    requires Promises(states[from], d, promised, desired)
    requires forall j :: from <= j < i ==> Undisturbed(states[j], steps[j], d)
    ensures Promises(states[i], d, promised, desired)
  {
    var inv := (s: State) => Promises(s, d, promised, desired);
    var ok := (s: State, step: Step) => Undisturbed(s, step, d);
    forall s, step | inv(s) && ok(s, step) && Enabled(s, step) ensures inv(Apply(s, step)) {
      QuietStep(s, step, Apply(s, step), d, promised, desired);
    }
    RunInduction(states, steps, from, i, inv, ok);
  }

  lemma DecisionPromises(s: State, step: Step, t: State, d: nat)
    requires Inv(s) && Settled(s, d) && step.Reconcile? && step.d == d && Enabled(s, step) && t == Apply(s, step)
    ensures Promises(t, d, Desired(s, d), Desired(s, d))
  {
    ReconcilePromises(s, d, step.chosen);
    StepKeepsInv(s, step);
    StepKeepsDesired(s, step, d);
  }

  /**
    Convergence. Step `at` of a run decides on deployment d while nothing about d is in flight.
    If the later steps do not disturb d, then in every later state in which nothing about d is
    in flight again, exactly the desired number of its containers is active and reconciling
    it once more changes nothing.
  */
  lemma RoundConverges(states: seq<State>, steps: seq<Step>, at: nat, i: nat, d: nat)
    requires IsRun(states, steps) && Inv(states[0]) && at < i < |states|
    requires steps[at].Reconcile? && steps[at].d == d && Settled(states[at], d)
    requires forall j :: at < j < i ==> Undisturbed(states[j], steps[j], d)
    requires Settled(states[i], d)
    ensures d < |states[i].deployments| && states[i].deployments[d].app < |states[i].apps|
    ensures |ActiveOf(states[i].containers, d)| == Desired(states[i], d) == Desired(states[at], d)
    ensures IsTarget(states[i], d) ==>
              forall chosen :: Enabled(states[i], Reconcile(d, chosen)) ==>
                                 Apply(states[i], Reconcile(d, chosen)) == states[i]
  {
    RunKeepsInv(states, steps, at);
    var desired := Desired(states[at], d);
    DecisionPromises(states[at], steps[at], states[at + 1], d);
    RoundConserves(states, steps, at + 1, i, d, desired, desired);
    SettledPromise(states[i], d);
  }

  /** A decision taken too early promises the placements already requested on top of the desired count. */
  lemma EarlyDecisionPromises(s: State, step: Step, t: State, d: nat)
    requires Inv(s) && Awaiting(s, d) && step.Reconcile? && step.d == d && Enabled(s, step) && t == Apply(s, step)
    requires |ActiveOf(s.containers, d)| < Desired(s, d)
    ensures Promises(t, d, Desired(s, d) + PlacementsFor(s.placements, d), Desired(s, d))
  {
    AwaitingPromise(s, d);
    ScaleUpPromise(s, d, step.chosen);
    StepKeepsInv(s, step);
    StepKeepsDesired(s, step, d);
  }

  /**
    When a scale-up is exact. Step `at` of a run finds d short of containers while nothing but placements
    and first starts is in flight for it. If the later steps do not disturb d, then once nothing about d
    is in flight, d has its desired number of active containers and one more for each placement that
    was still queued at the decision: exactly the desired number if and only if none was.
  */
  lemma ScaleUpExactIff(states: seq<State>, steps: seq<Step>, at: nat, i: nat, d: nat)
    requires IsRun(states, steps) && Inv(states[0]) && at < i < |states|
    requires steps[at].Reconcile? && steps[at].d == d && Awaiting(states[at], d)
    requires |ActiveOf(states[at].containers, d)| < Desired(states[at], d)
    requires forall j :: at < j < i ==> Undisturbed(states[j], steps[j], d)
    requires Settled(states[i], d)
    ensures var active, desired := |ActiveOf(states[i].containers, d)|, Desired(states[at], d);
            && active == desired + PlacementsFor(states[at].placements, d)
            && (active == desired <==> PlacementsFor(states[at].placements, d) == 0)
  {
    RunKeepsInv(states, steps, at);
    var s := states[at];
    EarlyDecisionPromises(s, steps[at], states[at + 1], d);
    RoundConserves(states, steps, at + 1, i, d, Desired(s, d) + PlacementsFor(s.placements, d), Desired(s, d));
    SettledPromise(states[i], d);
  }
}
