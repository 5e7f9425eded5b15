/**
  The handlers as they run: loops over rows and in-place updates of the tables, the streams and
  the workers' tracked maps. Each handler is proved to perform exactly the steps of `Cluster` it
  stands for, so every theorem about runs of `Cluster` is about these methods.
*/
module ControlPlane {
  import opened Basics
  import opened Cluster
  import opened TickRound

  // -- ordering by start --------------------------------------------------------------

  /** Every id names a row, and none starts before one that precedes it. */
  ghost predicate Ordered(rows: seq<Container>, ids: seq<nat>) {
    && (forall i :: 0 <= i < |ids| ==> ids[i] < |rows|)
    && (forall i, j :: 0 <= i < j < |ids| ==> !StartsBefore(rows[ids[j]].startedAt, rows[ids[i]].startedAt))
  }

  function InsertAt(s: seq<nat>, p: nat, x: nat): (r: seq<nat>)
    requires p <= |s|
    ensures |r| == |s| + 1
    ensures forall i :: 0 <= i < |r| ==> r[i] == if i < p then s[i] else if i == p then x else s[i - 1]
  {
    s[..p] + [x] + s[p..]
  }

  lemma InsertKeepsMembers(s: seq<nat>, p: nat, x: nat)
    requires p <= |s| && Distinct(s) && x !in s
    ensures Distinct(InsertAt(s, p, x)) && Members(InsertAt(s, p, x)) == Members(s) + {x}
  {
    var r := InsertAt(s, p, x);
    forall y | y in s ensures y in r {
      var i :| 0 <= i < |s| && s[i] == y;
      assert r[if i < p then i else i + 1] == y;
    }
    assert r[p] == x;
  }

  lemma InsertKeepsOrder(rows: seq<Container>, s: seq<nat>, p: nat, x: nat)
    requires Ordered(rows, s) && p <= |s| && x < |rows|
    requires forall i :: 0 <= i < p ==> !StartsBefore(rows[x].startedAt, rows[s[i]].startedAt)
    requires p < |s| ==> StartsBefore(rows[x].startedAt, rows[s[p]].startedAt)
    ensures Ordered(rows, InsertAt(s, p, x))
  {
    var r := InsertAt(s, p, x);
    forall j | p < j < |r| ensures !StartsBefore(rows[r[j]].startedAt, rows[x].startedAt) {
      assert j - 1 > p ==> !StartsBefore(rows[s[j - 1]].startedAt, rows[s[p]].startedAt);
    }
  }

  /** A prefix of the sorted active containers is a permitted choice. */
  lemma PrefixIsOldest(rows: seq<Container>, active: set<nat>, sorted: seq<nat>, k: nat)
    requires Ordered(rows, sorted) && Distinct(sorted) && Members(sorted) == active && k <= |sorted|
    ensures OldestChosen(rows, active, sorted[..k], k)
  {
    var chosen := sorted[..k];
    assert forall i :: 0 <= i < k ==> chosen[i] == sorted[i] && sorted[i] in Members(sorted) && sorted[i] in chosen;
    forall i, x | 0 <= i < k && x in active && x !in chosen && x < |rows|
      ensures !StartsBefore(rows[x].startedAt, rows[chosen[i]].startedAt)
    {
      assert x in Members(sorted);
      var j :| 0 <= j < |sorted| && sorted[j] == x;
    }
  }

  // -- polling a node -----------------------------------------------------------------

  function AssignmentsOn(n: nat, tracked: map<(nat, nat), Tracked>): (r: set<nat>)
    ensures forall c :: c in r <==> (n, c) in tracked
  {
    set k | k in tracked && k.0 == n :: k.1
  }

  function Answer(seen: map<nat, Status>, c: nat): Option<Status> {
    if c in seen then Some(seen[c]) else None
  }

  /** What has been visited and what is left make up the whole, without overlap. */
  ghost predicate Splits(order: seq<nat>, todo: set<nat>, all: set<nat>) {
    Distinct(order) && Members(order) + todo == all && Members(order) !! todo
  }

  lemma SplitsNext(order: seq<nat>, todo: set<nat>, all: set<nat>, c: nat)
    requires Splits(order, todo, all) && c in todo
    ensures Splits(order + [c], todo - {c}, all) && c !in order && c in all
  {
    assert c in order ==> c in Members(order);
    assert Members(order + [c]) == Members(order) + {c};
  }

  /** Poll the given assignments of node n one after the other. */
  ghost function PolledInOrder(s: State, n: nat, order: seq<nat>, seen: map<nat, Status>): (t: State)
    requires forall i :: 0 <= i < |order| ==> (n, order[i]) in s.tracked
    ensures t.tracked.Keys == s.tracked.Keys
    ensures forall k :: k in s.tracked && (k.0 != n || k.1 !in order) ==> t.tracked[k] == s.tracked[k]
  {
    if order == [] then s
    else
      var last := |order| - 1;
      Polled(PolledInOrder(s, n, order[..last], seen), n, order[last], Answer(seen, order[last]))
  }

  lemma PollNext(s: State, n: nat, order: seq<nat>, seen: map<nat, Status>, i: nat)
    requires forall j :: 0 <= j < |order| ==> (n, order[j]) in s.tracked
    requires i < |order|
    ensures var u, step := PolledInOrder(s, n, order[..i], seen), Poll(n, order[i], Answer(seen, order[i]));
            Enabled(u, step) && PolledInOrder(s, n, order[..i + 1], seen) == Apply(u, step)
  {
    assert order[..i + 1][..i] == order[..i];
  }

  /** Polling in order is a run of poll steps. */
  lemma PollingIsRun(s: State, n: nat, order: seq<nat>, seen: map<nat, Status>)
    returns (states: seq<State>, steps: seq<Step>)
    requires forall i :: 0 <= i < |order| ==> (n, order[i]) in s.tracked
    ensures IsRun(states, steps) && states[0] == s && states[|steps|] == PolledInOrder(s, n, order, seen)
    ensures |steps| == |order|
    ensures forall i :: 0 <= i < |order| ==> steps[i] == Poll(n, order[i], Answer(seen, order[i]))
  {
    states := seq(|order| + 1, i requires 0 <= i <= |order| => PolledInOrder(s, n, order[..i], seen));
    steps := seq(|order|, i requires 0 <= i < |order| => Poll(n, order[i], Answer(seen, order[i])));
    forall i | 0 <= i < |order| ensures Enabled(states[i], steps[i]) && states[i + 1] == Apply(states[i], steps[i]) {
      PollNext(s, n, order, seen, i);
    }
    assert order[..|order|] == order;
  }

  class Platform {
    var nodes: seq<Node>
    var apps: seq<Application>
    var deployments: seq<Deployment>
    var quotas: map<nat, Quota>
    var containers: seq<Container>
    var placements: seq<PlacementMsg>
    var assigns: seq<AssignMsg>
    var unassigns: seq<UnassignMsg>
    var log: seq<StatusMsg>
    var acked: nat
    var tracked: map<(nat, nat), Tracked>

    ghost function View(): State
      reads this
    {
      State(nodes, apps, deployments, quotas, containers, placements, assigns, unassigns, log, acked, tracked)
    }

    // -- scheduler --------------------------------------------------------------------

    /** loadOf: count the node's non-terminal containers. */
    method LoadOf(n: nat) returns (load: nat)
      ensures load == Load(containers, n)
    {
      load := 0;
      ghost var seen: set<nat> := {};
      for i := 0 to |containers|
        invariant seen == set c | 0 <= c < i && containers[c].node == n && Active(containers[c].status)
        invariant load == |seen|
      {
        if containers[i].node == n && Active(containers[i].status) {
          load := load + 1;
          seen := seen + {i};
        }
      }
      assert seen == ActiveOn(containers, n);
    }

    /** selectNode: filter by health and capacity, keep the first node with the lowest load. */
    method SelectNode() returns (best: Option<nat>)
      ensures best == BestNode(nodes, containers)
    {
      best := None;
      var bestLoad := 0;
      for i := 0 to |nodes|
        invariant best == BestNode(nodes[..i], containers)
        invariant best.Some? ==> bestLoad == Load(containers, nodes[best.value].id)
      {
        assert nodes[..i + 1][..i] == nodes[..i];
        if Eligible(nodes[i]) {
          var load := LoadOf(nodes[i].id);
          if best.None? || load < bestLoad {
            best, bestLoad := Some(i), load;
          }
        }
      }
      assert nodes[..|nodes|] == nodes;
    }

    /** checkQuota: unknown deployment or quota, or no room for one more container, rejects. */
    method CheckQuota(d: nat) returns (ok: bool)
      ensures ok == QuotaAdmits(View(), d)
    {
      if d >= |deployments| {
        return false;
      }
      var org := deployments[d].org;
      if org !in quotas {
        return false;
      }
      var usage := |ActiveIn(containers, deployments, org)|;
      if usage + 1 > quotas[org].maxContainers {
        return false;
      } else if OrgCpu(apps, org) > quotas[org].maxCpu {
        return false;
      } else if OrgMemory(apps, org) > quotas[org].maxMemory {
        return false;
      }
      return true;
    }

    /**
      handlePlacement: the message is done with whether or not it led to a row and an assignment,
      unless its acknowledgement does not arrive in time.
    */
    method HandlePlacement(ack: bool)
      requires placements != []
      modifies this`placements, this`containers, this`assigns
      ensures View() == Apply(old(View()), Place(ack))
    {
      var m := placements[0];
      var node := SelectNode();
      var ok := false;
      if node.Some? {
        ok := CheckQuota(m.deployment);
      }
      if ack {
        placements := placements[1..];
      }
      if !ok {
        return;
      }
      var id, n := |containers|, nodes[node.value].id;
      containers := containers + [Container(m.deployment, n, None, Pending, None, None)];
      assigns := assigns + [AssignMsg(n, id, m.image)];
    }

    /** handleStatus: an unknown assignment is dropped, any other status overwrites the row. */
    method HandleStatus(now: int)
      requires acked < |log|
      modifies this`acked, this`containers
      ensures View() == Apply(old(View()), RecordStatus(now))
    {
      var m := log[acked];
      acked := acked + 1;
      if m.assignment < |containers| {
        var row := containers[m.assignment];
        row := row.(status := m.status);
        if m.runtimeId != "" {
          row := row.(runtimeId := Some(m.runtimeId));
        }
        if m.status.Running? && row.startedAt.None? {
          row := row.(startedAt := Some(now));
        }
        if (m.status.Crashed? || m.status.Stopped?) && row.stoppedAt.None? {
          row := row.(stoppedAt := Some(now));
        }
        containers := containers[m.assignment := row];
      }
    }

    // -- worker -----------------------------------------------------------------------

    /** handleAssignment, given what the container runtime made of the request. */
    method HandleAssignment(k: nat, outcome: Option<Started>, ack: bool)
      requires k < |assigns|
      modifies this`assigns, this`log, this`tracked
      ensures View() == Apply(old(View()), StartAssigned(k, outcome, ack))
    {
      var m := assigns[k];
      if ack {
        assigns := assigns[..k] + assigns[k + 1..];
      }
      match outcome
      case None =>
        log := log + [StatusMsg(m.assignment, "", Crashed)];
      case Some(info) =>
        log := log + [StatusMsg(m.assignment, info.runtimeId, info.status)];
        tracked := tracked[(m.node, m.assignment) := Tracked(info.runtimeId, info.status)];
    }

    /** handleUnassign: stop errors are ignored, "stopped" is always published. */
    method HandleUnassign(k: nat, ack: bool)
      requires k < |unassigns|
      modifies this`unassigns, this`log, this`tracked
      ensures View() == Apply(old(View()), StopAssigned(k, ack))
    {
      var m := unassigns[k];
      if ack {
        unassigns := unassigns[..k] + unassigns[k + 1..];
      }
      log := log + [StatusMsg(m.assignment, m.runtimeId, Stopped)];
      tracked := tracked - {(m.node, m.assignment)};
    }

    /** One entry of the poll: publish and remember the status only if it changed. */
    method CheckOne(n: nat, c: nat, last: Tracked, seen: Option<Status>)
      requires (n, c) in tracked && tracked[(n, c)] == last
      modifies this`log, this`tracked
      ensures View() == Polled(old(View()), n, c, seen)
    {
      if seen.None? || seen.value == last.lastStatus {
        return;
      }
      log := log + [StatusMsg(c, last.runtimeId, seen.value)];
      if (n, c) in tracked {
        tracked := tracked[(n, c) := tracked[(n, c)].(lastStatus := seen.value)];
      }
    }

    /**
      checkTrackedContainers on node n: each entry tracked at the start is polled once, in whatever
      order the map yields them. `seen` is what the runtime answers; an id it does not answer for
      is an inspection error.
    */
    method CheckTrackedContainers(n: nat, seen: map<nat, Status>) returns (ghost order: seq<nat>)
      modifies this`log, this`tracked
      ensures Distinct(order) && Members(order) == AssignmentsOn(n, old(tracked))
      ensures forall i :: 0 <= i < |order| ==> (n, order[i]) in old(tracked)
      ensures View() == PolledInOrder(old(View()), n, order, seen)
    {
      var snapshot := tracked;
      var todo := AssignmentsOn(n, tracked);
      ghost var all := todo;
      order := [];
      while todo != {}
        invariant Splits(order, todo, all)
        invariant forall i :: 0 <= i < |order| ==> (n, order[i]) in old(tracked)
        invariant View() == PolledInOrder(old(View()), n, order, seen)
        decreases todo
      {
        var c :| c in todo;
        SplitsNext(order, todo, all, c);
        CheckOne(n, c, snapshot[(n, c)], Answer(seen, c));
        assert (order + [c])[..|order|] == order;
        todo, order := todo - {c}, order + [c];
      }
    }

    // -- deployment controller --------------------------------------------------------

    /** scaleUp: one placement request per missing replica. */
    method ScaleUp(d: nat, shortfall: nat)
      requires d < |deployments|
      modifies this`placements
      ensures placements == old(placements) + Repeat(PlacementMsg(d, deployments[d].image), shortfall)
    {
      var m := PlacementMsg(d, deployments[d].image);
      for i := 0 to shortfall
        invariant placements == old(placements) + Repeat(m, i)
      {
        placements := placements + [m];
        assert Repeat(m, i + 1) == Repeat(m, i) + [m];
      }
    }

    /** The sort of the active slice: its elements rearranged so that none precedes one before it. */
    method SortByStart(ids: seq<nat>) returns (sorted: seq<nat>)
      requires Distinct(ids) && forall i :: 0 <= i < |ids| ==> ids[i] < |containers|
      ensures Distinct(sorted) && Members(sorted) == Members(ids) && |sorted| == |ids|
      ensures Ordered(containers, sorted)
    {
      sorted := [];
      for n := 0 to |ids|
        invariant Distinct(sorted) && Members(sorted) == Members(ids[..n]) && |sorted| == n
        invariant Ordered(containers, sorted)
      {
        var x := ids[n];
        assert x !in sorted by {
          assert x !in Members(ids[..n]);
          assert x in sorted ==> x in Members(sorted);
        }
        var p := 0;
        while p < |sorted| && !StartsBefore(containers[x].startedAt, containers[sorted[p]].startedAt)
          invariant p <= |sorted|
          invariant forall i :: 0 <= i < p ==> !StartsBefore(containers[x].startedAt, containers[sorted[i]].startedAt)
        {
          p := p + 1;
        }
        InsertKeepsMembers(sorted, p, x);
        InsertKeepsOrder(containers, sorted, p, x);
        sorted := InsertAt(sorted, p, x);
        assert ids[..n + 1] == ids[..n] + [x];
        assert Members(ids[..n + 1]) == Members(ids[..n]) + {x};
      }
      assert ids[..|ids|] == ids;
    }

    /** The active containers of a deployment, in row order. */
    method ListActive(d: nat) returns (active: seq<nat>)
      ensures Distinct(active) && Members(active) == ActiveOf(containers, d)
      ensures forall i :: 0 <= i < |active| ==> active[i] < |containers|
    {
      active := [];
      for c := 0 to |containers|
        invariant Distinct(active) && forall i :: 0 <= i < |active| ==> active[i] < c
        invariant forall x :: x in active <==> 0 <= x < c && containers[x].deployment == d && Active(containers[x].status)
      {
        if containers[c].deployment == d && Active(containers[c].status) {
          active := active + [c];
        }
      }
    }

    method PublishUnassigns(chosen: seq<nat>)
      requires forall i :: 0 <= i < |chosen| ==> chosen[i] < |containers|
      modifies this`unassigns
      ensures unassigns == old(unassigns) + UnassignFor(containers, chosen)
    {
      for i := 0 to |chosen|
        invariant unassigns == old(unassigns) + UnassignFor(containers, chosen)[..i]
      {
        var row := containers[chosen[i]];
        var runtimeId := "";
        if row.runtimeId.Some? {
          runtimeId := row.runtimeId.value;
        }
        unassigns := unassigns + [UnassignMsg(row.node, chosen[i], runtimeId)];
      }
    }

    /** scaleDown: unassign the first `excess` active containers in start order. */
    method ScaleDown(d: nat, excess: nat) returns (chosen: seq<nat>)
      modifies this`unassigns
      ensures OldestChosen(containers, ActiveOf(containers, d), chosen, Min(excess, |ActiveOf(containers, d)|))
      ensures unassigns == old(unassigns) + UnassignFor(containers, chosen)
    {
      var active := ListActive(d);
      DistinctSize(active);
      var sorted := SortByStart(active);
      var k := if excess > |sorted| then |sorted| else excess;
      chosen := sorted[..k];
      PrefixIsOldest(containers, ActiveOf(containers, d), sorted, k);
      PublishUnassigns(chosen);
    }

    /** reconcileOne: compare active with desired and act on the difference. */
    method ReconcileOne(d: nat) returns (ghost chosen: seq<nat>)
      requires IsTarget(View(), d)
      modifies this`placements, this`unassigns
      ensures Enabled(old(View()), Reconcile(d, chosen)) && View() == Apply(old(View()), Reconcile(d, chosen))
    {
      chosen := [];
      var active := |ActiveOf(containers, d)|;
      var desired := apps[deployments[d].app].replicas;
      if active < desired {
        ScaleUp(d, desired - active);
      } else if active > desired {
        var picked := ScaleDown(d, active - desired);
        chosen := picked;
      }
    }

    /** The controller's worklist: one entry per application whose latest deployment has not failed. */
    method ListTargets() returns (targets: seq<nat>)
      ensures Distinct(targets) && forall d :: d in targets <==> IsTarget(View(), d)
    {
      targets := [];
      for d := 0 to |deployments|
        invariant Distinct(targets) && forall i :: 0 <= i < |targets| ==> targets[i] < d
        invariant forall e :: e in targets <==> 0 <= e < d && IsTarget(View(), e)
      {
        var latest := true;
        for e := d + 1 to |deployments|
          invariant latest <==> forall x :: d < x < e ==> deployments[x].app != deployments[d].app
        {
          if deployments[e].app == deployments[d].app {
            latest := false;
          }
        }
        if latest && deployments[d].app < |apps| && !deployments[d].failed {
          targets := targets + [d];
        }
      }
    }

    /** tick: a run that reconciles every target exactly once. */
    method Tick() returns (ghost states: seq<State>, ghost steps: seq<Step>)
      modifies this`placements, this`unassigns
      ensures IsRun(states, steps) && states[0] == old(View()) && states[|steps|] == View()
      ensures IsTick(old(View()), steps, |steps|)
    {
      var targets := ListTargets();
      states, steps := [View()], [];
      for i := 0 to |targets|
        invariant |steps| == i && IsRun(states, steps) && states[0] == old(View()) && states[i] == View()
        invariant forall j :: 0 <= j < i ==> steps[j].Reconcile? && steps[j].d == targets[j]
        invariant forall d :: IsTarget(View(), d) <==> IsTarget(old(View()), d)
      {
        assert targets[i] in targets;
        ghost var chosen := ReconcileOne(targets[i]);
        ghost var step := Reconcile(targets[i], chosen);
        ExtendRun(states, steps, step, View());
        states, steps := states + [View()], steps + [step];
      }
      forall d | IsTarget(old(View()), d) ensures exists i :: 0 <= i < |steps| && steps[i].d == d {
        var i :| 0 <= i < |targets| && targets[i] == d;
        assert steps[i].d == d;
      }
    }
  }
}
