/**
  What the two selection rules guarantee: the scheduler's least-loaded choice keeps the nodes
  balanced over a run, and the controller's oldest-first choice orders who is stopped.
*/
module Placement {
  import opened Basics
  import opened Cluster

  // -- what one placement does --------------------------------------------------------

  /** The pending and running containers of a node. */
  ghost function Occupancy(rows: seq<Container>, n: nat): nat {
    |set c | 0 <= c < |rows| && rows[c].node == n && (rows[c].status == Pending || rows[c].status == Running)|
  }

  /** The pending and running containers of the deployments of an organization. */
  ghost function InUse(rows: seq<Container>, deps: seq<Deployment>, org: nat): nat {
    |set c | 0 <= c < |rows| && rows[c].deployment < |deps| && deps[rows[c].deployment].org == org &&
             (rows[c].status == Pending || rows[c].status == Running)|
  }

  lemma CountsAgree(rows: seq<Container>, deps: seq<Deployment>)
    ensures forall n :: Load(rows, n) == Occupancy(rows, n)
    ensures forall org :: |ActiveIn(rows, deps, org)| == InUse(rows, deps, org)
  {
    forall n: nat ensures Load(rows, n) == Occupancy(rows, n) {
      assert ActiveOn(rows, n) ==
        set c | 0 <= c < |rows| && rows[c].node == n && (rows[c].status == Pending || rows[c].status == Running);
    }
    forall org: nat ensures |ActiveIn(rows, deps, org)| == InUse(rows, deps, org) {
      assert ActiveIn(rows, deps, org) ==
        set c | 0 <= c < |rows| && rows[c].deployment < |deps| && deps[rows[c].deployment].org == org &&
                (rows[c].status == Pending || rows[c].status == Running);
    }
  }

  /** Node i is healthy and has capacity, none such has fewer pending and running containers, and none before it as few. */
  ghost predicate LeastOccupied(s: State, i: nat) {
    && i < |s.nodes| && s.nodes[i].healthy && s.nodes[i].cpuCapacity > 0 && s.nodes[i].memoryCapacity > 0
    && forall j :: 0 <= j < |s.nodes| && s.nodes[j].healthy && s.nodes[j].cpuCapacity > 0 && s.nodes[j].memoryCapacity > 0 ==>
         if j < i then Occupancy(s.containers, s.nodes[i].id) < Occupancy(s.containers, s.nodes[j].id)
         else Occupancy(s.containers, s.nodes[i].id) <= Occupancy(s.containers, s.nodes[j].id)
  }

  /** The deployment's organization has a quota with room for one more container and is within its other totals. */
  ghost predicate HasRoom(s: State, d: nat) {
    && d < |s.deployments| && s.deployments[d].org in s.quotas
    && var org := s.deployments[d].org;
       && InUse(s.containers, s.deployments, org) < s.quotas[org].maxContainers
       && OrgCpu(s.apps, org) <= s.quotas[org].maxCpu && OrgMemory(s.apps, org) <= s.quotas[org].maxMemory
  }

  /**
    One placement, exactly: a pending row for the requested deployment and its assignment appear on the first
    least occupied healthy node with capacity, if there is such a node and the quota has room; otherwise
    nothing but the message changes.
  */
  lemma PlaceExactly(s: State, ack: bool)
    requires s.placements != []
    ensures var t, m := Apply(s, Place(ack)), s.placements[0];
            && t.placements == (if ack then s.placements[1..] else s.placements)
            && if HasRoom(s, m.deployment) &&
                  (exists i :: 0 <= i < |s.nodes| && s.nodes[i].healthy &&
                               s.nodes[i].cpuCapacity > 0 && s.nodes[i].memoryCapacity > 0) then
                 exists i: nat :: LeastOccupied(s, i) &&
                   t.containers == s.containers + [Container(m.deployment, s.nodes[i].id, None, Pending, None, None)] &&
                   t.assigns == s.assigns + [AssignMsg(s.nodes[i].id, |s.containers|, m.image)]
               else t.containers == s.containers && t.assigns == s.assigns
  {
    CountsAgree(s.containers, s.deployments);
    var best := BestNode(s.nodes, s.containers);
    if best.Some? {
      assert LeastOccupied(s, best.value);
    }
  }

  // -- what counts against the cpu and memory ceilings --------------------------------

  /** Every application of the organization adds its cpu and memory once per replica; others add nothing. */
  lemma TotalsAdd(apps: seq<Application>, a: Application, org: nat)
    ensures OrgCpu([], org) == OrgMemory([], org) == 0
    ensures OrgCpu(apps + [a], org) == OrgCpu(apps, org) + if a.org == org then a.cpu * a.replicas else 0
    ensures OrgMemory(apps + [a], org) == OrgMemory(apps, org) + if a.org == org then a.memory * a.replicas else 0
  {
    assert (apps + [a])[..|apps|] == apps;
  }

  // -- balance over runs --------------------------------------------------------------

  /** No eligible node carries more than `bound` containers more than another. */
  ghost predicate Spread(s: State, bound: int) {
    forall i, j :: 0 <= i < |s.nodes| && 0 <= j < |s.nodes| && Eligible(s.nodes[i]) && Eligible(s.nodes[j]) ==>
                     Load(s.containers, s.nodes[i].id) <= Load(s.containers, s.nodes[j].id) + bound
  }

  /** The step keeps the nodes and moves no container in or out of the active statuses. */
  ghost predicate NoTermination(s: State, step: Step) {
    && !step.ChangeNodes?
    && (step.RecordStatus? && s.acked < |s.log| && s.log[s.acked].assignment < |s.containers| ==>
          Active(s.log[s.acked].status) == Active(s.containers[s.log[s.acked].assignment].status))
  }

  lemma LoadAppend(rows: seq<Container>, row: Container, n: nat)
    requires Active(row.status)
    ensures Load(rows + [row], n) == Load(rows, n) + if row.node == n then 1 else 0
  {
    assert ActiveOn(rows + [row], n) ==
           if row.node == n then ActiveOn(rows, n) + {|rows|} else ActiveOn(rows, n);
  }

  lemma LoadUpdate(rows: seq<Container>, c: nat, row: Container, n: nat)
    requires c < |rows| && row.node == rows[c].node && Active(row.status) == Active(rows[c].status)
    ensures Load(rows[c := row], n) == Load(rows, n)
  {
    assert ActiveOn(rows[c := row], n) == ActiveOn(rows, n);
  }

  lemma PlaceKeepsSpread(s: State, ack: bool, bound: int)
    requires Accepts(s) && Spread(s, bound) && bound >= 1
    ensures Spread(Placed(s, ack), bound)
  {
    var t := Placed(s, ack);
    forall i, j | 0 <= i < |t.nodes| && 0 <= j < |t.nodes| && Eligible(t.nodes[i]) && Eligible(t.nodes[j])
      ensures Load(t.containers, t.nodes[i].id) <= Load(t.containers, t.nodes[j].id) + bound
    {
      LoadAppend(s.containers, t.containers[|s.containers|], s.nodes[i].id);
      LoadAppend(s.containers, t.containers[|s.containers|], s.nodes[j].id);
    }
  }

  lemma StepKeepsSpread(s: State, step: Step, bound: int)
    requires Enabled(s, step) && NoTermination(s, step) && Spread(s, bound) && bound >= 1
    ensures Spread(Apply(s, step), bound)
  {
    var t := Apply(s, step);
    if step.Place? && Accepts(s) {
      PlaceKeepsSpread(s, step.ack, bound);
    } else if t.containers != s.containers {
      var c := s.log[s.acked].assignment;
      forall i | 0 <= i < |s.nodes| ensures Load(t.containers, s.nodes[i].id) == Load(s.containers, s.nodes[i].id) {
        LoadUpdate(s.containers, c, t.containers[c], s.nodes[i].id);
      }
    }
  }

  /**
    Greedy balance: over any run without terminations, whatever deployments are placed and
    however messages interleave, the spread never exceeds the larger of one and the initial spread.
  */
  lemma {:induction false} BalanceHolds(states: seq<State>, steps: seq<Step>, initial: int, i: nat)
    requires IsRun(states, steps) && i < |states| && Spread(states[0], initial)
    requires forall j :: 0 <= j < |steps| ==> NoTermination(states[j], steps[j])
    ensures Spread(states[i], Max(1, initial))
  {
    if i > 0 {
      BalanceHolds(states, steps, initial, i - 1);
      StepKeepsSpread(states[i - 1], steps[i - 1], Max(1, initial));
    }
  }

  /** One is the best bound: with two idle nodes the first placement already makes the spread one. */
  lemma BalanceIsTight(s: State, ack: bool)
    requires Accepts(s) && |s.nodes| == 2 && s.nodes[0].id != s.nodes[1].id
    requires Eligible(s.nodes[0]) && Eligible(s.nodes[1]) && Spread(s, 0)
    ensures Spread(Placed(s, ack), 1) && !Spread(Placed(s, ack), 0)
  {
    var t := Placed(s, ack);
    forall i | 0 <= i < 2
      ensures Load(t.containers, s.nodes[i].id) ==
              Load(s.containers, s.nodes[i].id) + if t.containers[|s.containers|].node == s.nodes[i].id then 1 else 0
    {
      LoadAppend(s.containers, t.containers[|s.containers|], s.nodes[i].id);
    }
    assert Load(s.containers, s.nodes[0].id) == Load(s.containers, s.nodes[1].id);
    PlaceKeepsSpread(s, ack, 1);
  }

  // -- who is stopped -----------------------------------------------------------------

  /** Neither start precedes the other. */
  predicate Tied(a: Option<int>, b: Option<int>) { !StartsBefore(a, b) && !StartsBefore(b, a) }

  /** The comparator handed to the sort is a strict weak order, so sorting by it is well defined. */
  lemma ComparatorIsStrictWeakOrder(a: Option<int>, b: Option<int>, c: Option<int>)
    ensures !StartsBefore(a, a)
    ensures StartsBefore(a, b) ==> !StartsBefore(b, a)
    ensures StartsBefore(a, b) && StartsBefore(b, c) ==> StartsBefore(a, c)
    ensures Tied(a, b) && Tied(b, c) ==> Tied(a, c)
    ensures Tied(a, b) <==> a == b
  {
  }

  /** A stopped container is no younger than one left running, and unstarted only if that one is too. */
  predicate NotYounger(stopped: Option<int>, left: Option<int>) {
    (stopped.Some? && left.Some? ==> stopped.value <= left.value) && (stopped.None? ==> left.None?)
  }

  lemma ChosenAreOldest(rows: seq<Container>, active: set<nat>, chosen: seq<nat>, k: nat)
    requires OldestChosen(rows, active, chosen, k) && forall c :: c in active ==> c < |rows|
    ensures var ids := Members(chosen);
            && |ids| == k && ids <= active
            && forall c, x :: c in ids && x in active - ids ==> NotYounger(rows[c].startedAt, rows[x].startedAt)
  {
    var ids := Members(chosen);
    DistinctSize(chosen);
    forall c, x | c in ids && x in active - ids
      ensures NotYounger(rows[c].startedAt, rows[x].startedAt)
    {
      var i :| 0 <= i < |chosen| && chosen[i] == c;
      assert !StartsBefore(rows[x].startedAt, rows[chosen[i]].startedAt);
    }
  }

  function Assignments(q: seq<UnassignMsg>): set<nat> { set u | u in q :: u.assignment }

  /**
    The scale-down choice: exactly min(excess, active) distinct active containers are asked to
    stop, each on its own node; none of them started later than one that is left; and an
    unstarted one is asked to stop only if every started one is.
  */
  lemma ScaleDownChoice(s: State, d: nat, chosen: seq<nat>, sent: seq<UnassignMsg>)
    requires Enabled(s, Reconcile(d, chosen)) && |ActiveOf(s.containers, d)| > Desired(s, d)
    requires Apply(s, Reconcile(d, chosen)).unassigns == s.unassigns + sent
    ensures var active, ids := ActiveOf(s.containers, d), Assignments(sent);
            && |sent| == |ids| == Min(|active| - Desired(s, d), |active|)
            && ids <= active
            && forall c, x :: c in ids && x in active - ids ==>
                                NotYounger(s.containers[c].startedAt, s.containers[x].startedAt)
    ensures forall i :: 0 <= i < |sent| ==>
              sent[i].assignment < |s.containers| &&
              var row := s.containers[sent[i].assignment];
              sent[i].node == row.node && sent[i].runtimeId == if row.runtimeId.Some? then row.runtimeId.value else ""
  {
    var active := ActiveOf(s.containers, d);
    assert sent == UnassignFor(s.containers, chosen) by {
      assert sent == (s.unassigns + sent)[|s.unassigns|..];
    }
    assert Assignments(sent) == Members(chosen) by {
      forall c | c in chosen ensures c in Assignments(sent) {
        var i :| 0 <= i < |chosen| && chosen[i] == c;
        assert sent[i] in sent;
      }
    }
    ChosenAreOldest(s.containers, active, chosen, |chosen|);
  }
}
