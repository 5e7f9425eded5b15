/**
  The container ceiling over whole runs of the cluster. The scheduler re-checks the quota
  at every placement, so the only way over the ceiling is a status message that revives a
  terminal row of a full organization. That condition is exact, and so are its causes: over a run
  whose statuses are all recorded, rows are revived if and only if a worker starts a container
  after reporting it gone, or a poll finds such a container alive.
*/
module QuotaSafety {
  import opened Basics
  import opened Cluster
  import opened Agreement

  function OrgActive(s: State, org: nat): nat { |ActiveIn(s.containers, s.deployments, org)| }

  /** Every organization with a quota is within its container ceiling. */
  ghost predicate Within(s: State) {
    forall org :: org in s.quotas ==> OrgActive(s, org) <= s.quotas[org].maxContainers
  }

  /** The next status message moves a crashed or stopped row back to active. */
  ghost predicate Revives(s: State, step: Step) {
    && step.RecordStatus? && s.acked < |s.log|
    && s.log[s.acked].assignment < |s.containers|
    && !Active(s.containers[s.log[s.acked].assignment].status)
    && Active(s.log[s.acked].status)
  }

  /** ... and its organization has no room for it. */
  ghost predicate Overflows(s: State, step: Step) {
    Revives(s, step) &&
    var d := s.containers[s.log[s.acked].assignment].deployment;
    d < |s.deployments| &&
    var org := s.deployments[d].org;
    org in s.quotas && OrgActive(s, org) >= s.quotas[org].maxContainers
  }

  lemma AppendCount(rows: seq<Container>, deps: seq<Deployment>, row: Container, org: nat)
    requires row.deployment < |deps| && Active(row.status)
    ensures |ActiveIn(rows + [row], deps, org)| ==
            |ActiveIn(rows, deps, org)| + if deps[row.deployment].org == org then 1 else 0
  {
    var before, after := ActiveIn(rows, deps, org), ActiveIn(rows + [row], deps, org);
    if deps[row.deployment].org == org {
      assert after == before + {|rows|};
    } else {
      assert after == before;
    }
  }

  lemma UpdateCount(rows: seq<Container>, deps: seq<Deployment>, c: nat, row: Container, org: nat)
    requires c < |rows| && row.deployment == rows[c].deployment < |deps|
    ensures var mine := deps[row.deployment].org == org;
            |ActiveIn(rows[c := row], deps, org)| ==
            |ActiveIn(rows, deps, org)| +
              if mine && !Active(rows[c].status) && Active(row.status) then 1
              else if mine && Active(rows[c].status) && !Active(row.status) then -1
              else 0
  {
    var before, after := ActiveIn(rows, deps, org), ActiveIn(rows[c := row], deps, org);
    assert forall x :: x in after - {c} <==> x in before - {c};
    if c in before {
      assert before == (before - {c}) + {c};
    }
    if c in after {
      assert after == (after - {c}) + {c};
    }
    assert after - {c} == before - {c};
    assert c in before <==> deps[row.deployment].org == org && Active(rows[c].status);
    assert c in after <==> deps[row.deployment].org == org && Active(row.status);
  }

  lemma OtherStepsCount(s: State, step: Step, org: nat)
    requires Addressed(s) && Enabled(s, step)
    requires !step.RecordStatus? && !(step.Place? && Accepts(s))
    ensures OrgActive(Apply(s, step), org) == OrgActive(s, org)
  {
    var t := Apply(s, step);
    assert t.containers == s.containers;
    assert ActiveIn(t.containers, t.deployments, org) == ActiveIn(s.containers, s.deployments, org);
  }

  lemma PlaceWithin(s: State, ack: bool)
    requires Addressed(s) && Within(s) && Accepts(s)
    ensures Within(Placed(s, ack))
  {
    var t := Placed(s, ack);
    forall org | org in t.quotas ensures OrgActive(t, org) <= t.quotas[org].maxContainers {
      AppendCount(s.containers, s.deployments, t.containers[|s.containers|], org);
    }
  }

  lemma RecordWithinIff(s: State, now: int)
    requires Addressed(s) && Within(s) && s.acked < |s.log|
    ensures Within(Recorded(s, now)) <==> !Overflows(s, RecordStatus(now))
  {
    var t := Recorded(s, now);
    var c := s.log[s.acked].assignment;
    var full := s.deployments[s.containers[c].deployment].org;
    UpdateCount(s.containers, s.deployments, c, t.containers[c], full);
    if !Overflows(s, RecordStatus(now)) {
      forall org | org in t.quotas ensures OrgActive(t, org) <= t.quotas[org].maxContainers {
        UpdateCount(s.containers, s.deployments, c, t.containers[c], org);
      }
    }
  }

  /** One step leaves the ceiling respected exactly when it is not a revival into a full organization. */
  lemma StepWithinIff(s: State, step: Step)
    requires Inv(s) && Within(s) && Enabled(s, step)
    ensures Within(Apply(s, step)) <==> !Overflows(s, step)
  {
    if step.Place? && Accepts(s) {
      PlaceWithin(s, step.ack);
    } else if step.RecordStatus? {
      RecordWithinIff(s, step.now);
    } else {
      forall org | org in s.quotas ensures OrgActive(Apply(s, step), org) <= s.quotas[org].maxContainers {
        OtherStepsCount(s, step, org);
      }
    }
  }

  /**
    Quota safety, exactly: for every interleaving of placements, status messages, ticks, polls,
    scale and deploy requests, and whatever is delivered twice, the ceilings hold throughout the run if and only if no status
    message revives a terminal row of an organization that is already at its ceiling.
  */
  lemma QuotaHoldsIff(states: seq<State>, steps: seq<Step>)
    requires IsRun(states, steps) && Inv(states[0]) && Within(states[0])
    ensures (forall i :: 0 <= i < |states| ==> Within(states[i])) <==>
            (forall i :: 0 <= i < |steps| ==> !Overflows(states[i], steps[i]))
  {
    if forall i :: 0 <= i < |steps| ==> !Overflows(states[i], steps[i]) {
      var p := 0;
      while p < |steps|
        invariant p <= |steps|
        invariant forall i :: 0 <= i <= p ==> Within(states[i])
      {
        RunKeepsInv(states, steps, p);
        StepWithinIff(states[p], steps[p]);
        p := p + 1;
      }
    }
    if forall i :: 0 <= i < |states| ==> Within(states[i]) {
      forall i | 0 <= i < |steps| ensures !Overflows(states[i], steps[i]) {
        RunKeepsInv(states, steps, i);
        StepWithinIff(states[i], steps[i]);
        assert Within(states[i + 1]);
      }
    }
  }

  // -- where revivals come from -------------------------------------------------------

  /** In the status stream, no assignment is reported active after a terminal report. */
  ghost predicate NeverBack(log: seq<StatusMsg>) {
    forall i, j :: 0 <= i < j < |log| && log[i].assignment == log[j].assignment && !Active(log[i].status) ==>
                     !Active(log[j].status)
  }

  lemma EverEndedAppend(log: seq<StatusMsg>, m: StatusMsg, c: nat)
    ensures EverEnded(log + [m], c) <==> EverEnded(log, c) || (m.assignment == c && !Active(m.status))
  {
    var longer := log + [m];
    assert longer[|log|] == m && forall i :: 0 <= i < |log| ==> longer[i] == log[i];
    if EverEnded(log, c) {
      var i :| 0 <= i < |log| && log[i].assignment == c && !Active(log[i].status);
      assert longer[i].assignment == c;
    }
  }

  lemma NeverBackAppend(log: seq<StatusMsg>, m: StatusMsg)
    ensures NeverBack(log + [m]) <==> NeverBack(log) && !(Active(m.status) && EverEnded(log, m.assignment))
  {
    var longer := log + [m];
    assert longer[|log|] == m && forall i :: 0 <= i < |log| ==> longer[i] == log[i];
    if EverEnded(log, m.assignment) {
      var i :| 0 <= i < |log| && log[i].assignment == m.assignment && !Active(log[i].status);
      assert longer[i].assignment == longer[|log|].assignment;
    }
  }

  /** In a stream that never goes back, a container once ended is ended in its last report. */
  lemma {:induction false} EndedStaysEnded(log: seq<StatusMsg>, c: nat)
    requires NeverBack(log)
    ensures EverEnded(log, c) <==> !Active(LastStatus(log, c))
  {
    if log != [] {
      var front, last := log[..|log| - 1], log[|log| - 1];
      assert log == front + [last];
      NeverBackAppend(front, last);
      EndedStaysEnded(front, c);
      EverEndedAppend(front, last, c);
    }
  }

  /** A worker starts an assignment for which it has already published a terminal status. */
  ghost predicate LateStart(s: State, step: Step) {
    && step.StartAssigned? && step.k < |s.assigns|
    && step.outcome.Some? && Active(step.outcome.value.status)
    && EverEnded(s.log, s.assigns[step.k].assignment)
  }

  /** A poll finds a container active again after a terminal status, and says so. */
  ghost predicate Restart(s: State, step: Step) {
    && step.Poll? && (step.node, step.id) in s.tracked
    && step.seen.Some? && Active(step.seen.value) && step.seen.value != s.tracked[(step.node, step.id)].lastStatus
    && EverEnded(s.log, step.id)
  }

  ghost predicate ComesBack(s: State, step: Step) { LateStart(s, step) || Restart(s, step) }

  /** One step keeps the stream from going back exactly when it does not bring a container back. */
  lemma StepNeverBackIff(s: State, step: Step, t: State)
    requires Enabled(s, step) && t == Apply(s, step)
    ensures NeverBack(t.log) <==> NeverBack(s.log) && !ComesBack(s, step)
  {
    if t.log != s.log {
      var m := t.log[|s.log|];
      assert t.log == s.log + [m];
      NeverBackAppend(s.log, m);
    }
  }

  lemma {:induction false} NeverBackIff(states: seq<State>, steps: seq<Step>, i: nat)
    requires IsRun(states, steps) && Initial(states[0]) && i < |states|
    ensures NeverBack(states[i].log) <==> forall p :: 0 <= p < i ==> !ComesBack(states[p], steps[p])
  {
    if i > 0 {
      NeverBackIff(states, steps, i - 1);
      StepNeverBackIff(states[i - 1], steps[i - 1], states[i]);
    }
  }

  /** What the scheduler has read of the status stream. */
  ghost function Read(s: State): seq<StatusMsg>
    requires s.acked <= |s.log|
  {
    s.log[..s.acked]
  }

  lemma RecordRevivesIff(s: State, now: int)
    requires Inv(s) && s.acked < |s.log| && NeverBack(Read(s))
    ensures NeverBack(Read(Recorded(s, now))) <==> !Revives(s, RecordStatus(now))
  {
    var m := s.log[s.acked];
    assert Read(Recorded(s, now)) == Read(s) + [m];
    NeverBackAppend(Read(s), m);
    EndedStaysEnded(Read(s), m.assignment);
  }

  lemma StepRevivesIff(s: State, step: Step, t: State)
    requires Inv(s) && Inv(t) && Enabled(s, step) && t == Apply(s, step)
    ensures NeverBack(Read(t)) <==> NeverBack(Read(s)) && !Revives(s, step)
  {
    if step.RecordStatus? {
      assert Read(t) == Read(s) + [s.log[s.acked]];
      NeverBackAppend(Read(s), s.log[s.acked]);
      if NeverBack(Read(s)) {
        RecordRevivesIff(s, step.now);
      }
    } else if !(step.Place? && Accepts(s)) {
      OtherStepsLeaveRows(s, step);
      SamePrefix(s, t);
    }
  }

  /** No row has been revived so far if and only if the reports recorded so far never go back. */
  lemma {:induction false} RevivalIff(states: seq<State>, steps: seq<Step>, i: nat)
    requires IsRun(states, steps) && Initial(states[0]) && i < |states|
    ensures Inv(states[i])
    ensures NeverBack(Read(states[i])) <==> forall p :: 0 <= p < i ==> !Revives(states[p], steps[p])
  {
    RunKeepsInv(states, steps, i);
    if i > 0 {
      RevivalIff(states, steps, i - 1);
      StepRevivesIff(states[i - 1], steps[i - 1], states[i]);
    }
  }

  lemma PrefixNeverBack(log: seq<StatusMsg>, n: nat)
    requires NeverBack(log) && n <= |log|
    ensures NeverBack(log[..n])
  {
  }

  /**
    No container is revived, exactly: over a run from the initial state whose statuses have all been
    recorded, no row goes back from crashed or stopped to active if and only if no worker starts
    an assignment it has already reported gone and no poll reports such a container alive.
  */
  lemma NoRevivalIff(states: seq<State>, steps: seq<Step>)
    requires IsRun(states, steps) && Initial(states[0]) && states[|steps|].acked == |states[|steps|].log|
    ensures (forall p :: 0 <= p < |steps| ==> !Revives(states[p], steps[p])) <==>
            (forall p :: 0 <= p < |steps| ==> !ComesBack(states[p], steps[p]))
  {
    var last := states[|steps|];
    assert Read(last) == last.log;
    RevivalIff(states, steps, |steps|);
    NeverBackIff(states, steps, |steps|);
  }

  /**
    Quota safety from causes a worker controls: if no assignment is started after its own
    unassignment was handled, and no container is seen alive after having been reported dead,
    then no row is ever revived and every ceiling holds in every state of the run, drained or not.
  */
  lemma QuotaHoldsWithoutLateStarts(states: seq<State>, steps: seq<Step>)
    requires IsRun(states, steps) && Initial(states[0]) && Within(states[0])
    requires forall i :: 0 <= i < |steps| ==> !ComesBack(states[i], steps[i])
    ensures forall i :: 0 <= i < |steps| ==> !Revives(states[i], steps[i])
    ensures forall i :: 0 <= i < |states| ==> Within(states[i])
  {
    RevivalIff(states, steps, |steps|);
    NeverBackIff(states, steps, |steps|);
    PrefixNeverBack(states[|steps|].log, states[|steps|].acked);
    assert forall i :: 0 <= i < |steps| ==> Overflows(states[i], steps[i]) ==> Revives(states[i], steps[i]);
    QuotaHoldsIff(states, steps);
  }
}
