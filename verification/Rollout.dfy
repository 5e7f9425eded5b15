/**
  What a deploy leads to: the deployment it appends is what the controller works on from then on,
  its containers run the image asked for, and one tick with its deliveries brings exactly the
  desired number of them up.
*/
module Rollout {
  import opened Basics
  import opened Cluster
  import opened Agreement
  import opened Convergence
  import opened TickRound

  /** The image a deploy asks for: the one given, or the application's current one. */
  function ImageAsked(s: State, a: nat, image: string): string
    requires a < |s.apps|
  {
    if image == "" then s.apps[a].image else image
  }

  /** A deploy appends one deployment and changes no other; of the applications it only sets a's image. */
  lemma DeployRecords(s: State, a: nat, image: string, published: bool)
    requires Enabled(s, Deploy(a, image, published))
    ensures var t, d := Apply(s, Deploy(a, image, published)), |s.deployments|;
            && |t.deployments| == d + 1 && t.deployments[..d] == s.deployments
            && t.deployments[d] == Deployment(a, s.apps[a].org, ImageAsked(s, a, image), !published)
            && t.apps == s.apps[a := s.apps[a].(image := ImageAsked(s, a, image))]
            && t.placements == s.placements + (if published then [PlacementMsg(d, ImageAsked(s, a, image))] else [])
            && t.containers == s.containers
  {
  }

  /**
    The worklist after a deploy of a: the deployment just appended is a's only target if its placement was
    published, and a has no target if it was not; every other application keeps its targets.
  */
  lemma DeployTargets(s: State, a: nat, image: string, published: bool, e: nat)
    requires Enabled(s, Deploy(a, image, published)) && e <= |s.deployments|
    ensures var t := Apply(s, Deploy(a, image, published));
            && (t.deployments[e].app == a ==> (IsTarget(t, e) <==> published && e == |s.deployments|))
            && (t.deployments[e].app != a ==> (IsTarget(t, e) <==> IsTarget(s, e)))
  {
    var t := Apply(s, Deploy(a, image, published));
    assert t.deployments[|s.deployments|].app == a;
    assert forall x :: 0 <= x < |s.deployments| ==> t.deployments[x] == s.deployments[x];
  }

  /** Every other step leaves the deployments alone. */
  lemma OthersKeepDeployments(s: State, step: Step)
    requires Enabled(s, step) && !step.Deploy?
    ensures Apply(s, step).deployments == s.deployments && |Apply(s, step).apps| == |s.apps|
  {
  }

  /** A scale request sets what is desired of every deployment of a, and of no other. */
  lemma ScaleSetsDesired(s: State, a: nat, replicas: nat, d: nat)
    requires Enabled(s, Scale(a, replicas)) && d < |s.deployments| && s.deployments[d].app < |s.apps|
    ensures var t := Apply(s, Scale(a, replicas));
            && t.deployments == s.deployments && t.containers == s.containers
            && Desired(t, d) == if s.deployments[d].app == a then replicas else s.apps[s.deployments[d].app].replicas
  {
  }

  /** d is a's latest deployment with this record, and a target exactly if it has not failed. */
  ghost predicate Current(s: State, a: nat, d: nat, record: Deployment) {
    && d < |s.deployments| && s.deployments[d] == record && record.app == a < |s.apps|
    && forall e :: 0 <= e < |s.deployments| && s.deployments[e].app == a ==>
                     (IsTarget(s, e) <==> e == d && !record.failed)
  }

  lemma SameDeployments(s: State, t: State, a: nat, d: nat, record: Deployment)
    requires Current(s, a, d, record) && t.deployments == s.deployments && |t.apps| == |s.apps|
    ensures Current(t, a, d, record)
  {
    forall e | 0 <= e < |t.deployments| && t.deployments[e].app == a
      ensures IsTarget(t, e) <==> e == d && !record.failed
    {
      assert IsTarget(t, e) <==> IsTarget(s, e);
    }
  }

  lemma StepKeepsCurrent(s: State, step: Step, a: nat, d: nat, record: Deployment)
    requires Current(s, a, d, record) && Enabled(s, step) && !(step.Deploy? && step.app == a)
    ensures Current(Apply(s, step), a, d, record)
  {
    var t := Apply(s, step);
    if step.Deploy? {
      forall e | 0 <= e < |t.deployments| && t.deployments[e].app == a
        ensures IsTarget(t, e) <==> e == d && !record.failed
      {
        DeployTargets(s, step.app, step.image, step.published, e);
      }
    } else {
      OthersKeepDeployments(s, step);
      SameDeployments(s, t, a, d, record);
    }
  }

  lemma DeployIsCurrent(s: State, a: nat, image: string, published: bool, t: State)
    requires Enabled(s, Deploy(a, image, published)) && t == Apply(s, Deploy(a, image, published))
    ensures Current(t, a, |s.deployments|, Deployment(a, s.apps[a].org, ImageAsked(s, a, image), !published))
  {
    DeployRecords(s, a, image, published);
    forall e | 0 <= e < |t.deployments| && t.deployments[e].app == a
      ensures IsTarget(t, e) <==> e == |s.deployments| && published
    {
      DeployTargets(s, a, image, published, e);
    }
  }

  /**
    In every later state up to the next deploy of the same application, the deployment appended by step p
    is the application's only target if it was published, and it has none otherwise.
  */
  lemma LastDeployIsTarget(states: seq<State>, steps: seq<Step>, p: nat, i: nat)
    requires IsRun(states, steps) && p < i < |states| && steps[p].Deploy?
    requires forall j :: p < j < i ==> !(steps[j].Deploy? && steps[j].app == steps[p].app)
    ensures var s, a := states[p], steps[p].app;
            Current(states[i], a, |s.deployments|,
                    Deployment(a, s.apps[a].org, ImageAsked(s, a, steps[p].image), !steps[p].published))
  {
    var s, a := states[p], steps[p].app;
    var d, record := |s.deployments|, Deployment(a, s.apps[a].org, ImageAsked(s, a, steps[p].image), !steps[p].published);
    var inv := (x: State) => Current(x, a, d, record);
    var ok := (x: State, step: Step) => !(step.Deploy? && step.app == a);
    forall x, step | inv(x) && ok(x, step) && Enabled(x, step) ensures inv(Apply(x, step)) {
      StepKeepsCurrent(x, step, a, d, record);
    }
    DeployIsCurrent(s, a, steps[p].image, steps[p].published, states[p + 1]);
    RunInduction(states, steps, p + 1, i, inv, ok);
  }

  lemma StepKeepsRecord(s: State, step: Step, d: nat)
    requires Enabled(s, step) && d < |s.deployments|
    ensures d < |Apply(s, step).deployments| && Apply(s, step).deployments[d] == s.deployments[d]
  {
    if step.Deploy? {
      DeployRecords(s, step.app, step.image, step.published);
    } else {
      OthersKeepDeployments(s, step);
    }
  }

  lemma RecordStays(states: seq<State>, steps: seq<Step>, p: nat, i: nat, d: nat)
    requires IsRun(states, steps) && p <= i < |states| && d < |states[p].deployments|
    ensures d < |states[i].deployments| && states[i].deployments[d] == states[p].deployments[d]
  {
    var record := states[p].deployments[d];
    var inv := (s: State) => d < |s.deployments| && s.deployments[d] == record;
    var ok := (s: State, step: Step) => true;
    forall s, step | inv(s) && ok(s, step) && Enabled(s, step) ensures inv(Apply(s, step)) {
      StepKeepsRecord(s, step, d);
    }
    RunInduction(states, steps, p, i, inv, ok);
  }

  /** Whenever a worker starts a container of the deployment appended by step p, it is the image asked for there. */
  lemma StartsRequestedImage(states: seq<State>, steps: seq<Step>, p: nat, i: nat)
    requires IsRun(states, steps) && Initial(states[0]) && p < i < |steps|
    requires steps[p].Deploy? && steps[i].StartAssigned?
    ensures var s, m := states[i], states[i].assigns[steps[i].k];
            && m.assignment < |s.containers| && m.node == s.containers[m.assignment].node
            && (s.containers[m.assignment].deployment == |states[p].deployments| ==>
                  m.image == ImageAsked(states[p], steps[p].app, steps[p].image))
  {
    DeployRecords(states[p], steps[p].app, steps[p].image, steps[p].published);
    RecordStays(states, steps, p + 1, i, |states[p].deployments|);
    StartsDeployedImage(states, steps, i);
  }

  /**
    Rollout: after the last published deploy of an application in any run, one tick from an idle cluster and
    the delivery of everything it causes leave exactly the application's replicas of the deployment that
    deploy appended active, with the image it asked for, and nothing is left to do for it.
  */
  lemma RolloutConverges(
    before: seq<State>, done: seq<Step>, p: nat, states: seq<State>, steps: seq<Step>, ticked: nat)
    requires IsRun(before, done) && p < |done| && done[p].Deploy? && done[p].published
    requires forall j :: p < j < |done| ==> !(done[j].Deploy? && done[j].app == done[p].app)
    requires states != [] && states[0] == before[|done|]
    requires IsRound(states, steps, ticked) && Idle(states[|steps|])
    ensures var last, a, d := states[|steps|], done[p].app, |before[p].deployments|;
            && d < |last.deployments| && a < |states[0].apps| && a < |last.apps| && IsTarget(last, d)
            && last.deployments[d].app == a && last.deployments[d].image == ImageAsked(before[p], a, done[p].image)
            && |ActiveOf(last.containers, d)| == last.apps[a].replicas == states[0].apps[a].replicas
    ensures forall chosen :: Enabled(states[|steps|], Reconcile(|before[p].deployments|, chosen)) ==>
              Apply(states[|steps|], Reconcile(|before[p].deployments|, chosen)) == states[|steps|]
  {
    LastDeployIsTarget(before, done, p, |done|);
    var d := |before[p].deployments|;
    assert IsTarget(states[0], d);
    TickConverges(states, steps, ticked, d);
    RecordStays(states, steps, 0, |steps|, d);
  }
}
