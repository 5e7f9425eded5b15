/**
  The placement and reconciliation protocol as one state machine.

  The state is the Postgres tables the control loop reads and writes, the JetStream
  streams between its services, and every worker's in-memory `tracked` map. Each durable
  handler, each poll of one container and each controller decision is one atomic step.

  Rows are numbered in insertion order, standing for their opaque uuids. The NODE_STATUS
  stream is a log with the scheduler's position in it; the other streams keep only what
  is still unacknowledged. Assignments and unassignments may be delivered in any order.

  A message is acknowledged after its handler returns. If the acknowledgement is lost, or comes
  too late because the handler took long, the message is delivered again: `ack` is false in the
  step, and the message stays where it was.
*/
module Cluster {
  import opened Basics

  // -- rows ---------------------------------------------------------------------------

  datatype Status = Pending | Running | Crashed | Stopped

  predicate Active(s: Status) { s.Pending? || s.Running? }

  datatype Container = Container(
    deployment: nat, node: nat, runtimeId: Option<string>, status: Status,
    startedAt: Option<int>, stoppedAt: Option<int>)

  datatype Node = Node(id: nat, healthy: bool, cpuCapacity: int, memoryCapacity: int)

  datatype Application = Application(org: nat, image: string, replicas: int, cpu: int, memory: int)

  /** Index order is revision order within an application. */
  datatype Deployment = Deployment(app: nat, org: nat, image: string, failed: bool)

  datatype Quota = Quota(maxContainers: int, maxCpu: int, maxMemory: int)

  // -- messages -----------------------------------------------------------------------

  datatype PlacementMsg = PlacementMsg(deployment: nat, image: string)

  datatype AssignMsg = AssignMsg(node: nat, assignment: nat, image: string)

  datatype UnassignMsg = UnassignMsg(node: nat, assignment: nat, runtimeId: string)

  datatype StatusMsg = StatusMsg(assignment: nat, runtimeId: string, status: Status)

  datatype Tracked = Tracked(runtimeId: string, lastStatus: Status)

  datatype State = State(
    nodes: seq<Node>,
    apps: seq<Application>,
    deployments: seq<Deployment>,
    quotas: map<nat, Quota>,
    containers: seq<Container>,
    placements: seq<PlacementMsg>,
    assigns: seq<AssignMsg>,
    unassigns: seq<UnassignMsg>,
    log: seq<StatusMsg>,
    acked: nat,
    tracked: map<(nat, nat), Tracked>)

  // -- queries ------------------------------------------------------------------------

  /** CountActiveByDeployment: the deployment's pending and running containers. */
  function ActiveOf(rows: seq<Container>, d: nat): set<nat> {
    set c | 0 <= c < |rows| && rows[c].deployment == d && Active(rows[c].status)
  }

  /** The non-terminal containers of a node, whose number is the node's load. */
  function ActiveOn(rows: seq<Container>, n: nat): set<nat> {
    set c | 0 <= c < |rows| && rows[c].node == n && Active(rows[c].status)
  }

  function Load(rows: seq<Container>, n: nat): nat { |ActiveOn(rows, n)| }

  /** The pending and running containers of an organization, through its deployments. */
  function ActiveIn(rows: seq<Container>, deps: seq<Deployment>, org: nat): set<nat> {
    set c | 0 <= c < |rows| && rows[c].deployment < |deps| && deps[rows[c].deployment].org == org
            && Active(rows[c].status)
  }

  function OrgCpu(apps: seq<Application>, org: nat): int {
    if |apps| == 0 then 0
    else
      var a := apps[|apps| - 1];
      OrgCpu(apps[..|apps| - 1], org) + if a.org == org then a.cpu * a.replicas else 0
  }

  function OrgMemory(apps: seq<Application>, org: nat): int {
    if |apps| == 0 then 0
    else
      var a := apps[|apps| - 1];
      OrgMemory(apps[..|apps| - 1], org) + if a.org == org then a.memory * a.replicas else 0
  }

  predicate Eligible(n: Node) { n.healthy && n.cpuCapacity > 0 && n.memoryCapacity > 0 }

  /** selectNode: scan the nodes in order, keeping the first one with the lowest load. */
  function BestNode(nodes: seq<Node>, rows: seq<Container>): (r: Option<nat>)
    ensures r.Some? ==> r.value < |nodes| && Eligible(nodes[r.value])
    ensures r.Some? ==> forall i :: 0 <= i < |nodes| && Eligible(nodes[i]) ==>
                          Load(rows, nodes[r.value].id) <= Load(rows, nodes[i].id)
    ensures r.Some? ==> forall i :: 0 <= i < r.value && Eligible(nodes[i]) ==>
                          Load(rows, nodes[r.value].id) < Load(rows, nodes[i].id)
    ensures r.None? ==> forall i :: 0 <= i < |nodes| ==> !Eligible(nodes[i])
  {
    if |nodes| == 0 then None
    else
      var k := |nodes| - 1;
      var best := BestNode(nodes[..k], rows);
      if !Eligible(nodes[k]) then best
      else if best.None? || Load(rows, nodes[k].id) < Load(rows, nodes[best.value].id) then Some(k)
      else best
  }

  /** checkQuota: one more container fits, and cpu and memory are not already exceeded. */
  predicate QuotaAdmits(s: State, d: nat) {
    d < |s.deployments| &&
    var org := s.deployments[d].org;
    org in s.quotas &&
    |ActiveIn(s.containers, s.deployments, org)| + 1 <= s.quotas[org].maxContainers &&
    OrgCpu(s.apps, org) <= s.quotas[org].maxCpu &&
    OrgMemory(s.apps, org) <= s.quotas[org].maxMemory
  }

  /** The head of the placement stream will be placed rather than dropped. */
  predicate Accepts(s: State) {
    && s.placements != []
    && BestNode(s.nodes, s.containers).Some?
    && QuotaAdmits(s, s.placements[0].deployment)
  }

  /** ListActive: the latest deployment of its application, unless it has failed. */
  predicate IsTarget(s: State, d: nat) {
    && d < |s.deployments|
    && s.deployments[d].app < |s.apps|
    && !s.deployments[d].failed
    && forall e :: d < e < |s.deployments| ==> s.deployments[e].app != s.deployments[d].app
  }

  function Desired(s: State, d: nat): int
    requires d < |s.deployments| && s.deployments[d].app < |s.apps|
  {
    s.apps[s.deployments[d].app].replicas
  }

  // -- scale-down choice --------------------------------------------------------------

  /** scaleDown's comparator: earlier start first, unstarted last. */
  predicate StartsBefore(a: Option<int>, b: Option<int>) {
    if a.None? then false
    else if b.None? then true
    else a.value < b.value
  }

  /** A permitted choice: k distinct active containers, none beaten by one left out. */
  ghost predicate OldestChosen(rows: seq<Container>, active: set<nat>, chosen: seq<nat>, k: nat) {
    && |chosen| == k
    && Distinct(chosen)
    && (forall i :: 0 <= i < |chosen| ==> chosen[i] in active && chosen[i] < |rows|)
    && (forall i, x :: 0 <= i < |chosen| && x in active && x !in chosen && x < |rows| ==>
          !StartsBefore(rows[x].startedAt, rows[chosen[i]].startedAt))
  }

  // -- steps --------------------------------------------------------------------------

  /** What starting an assigned container led to: None for a pull, create or start error. */
  datatype Started = Started(runtimeId: string, status: Status)

  datatype Step =
    | Reconcile(d: nat, chosen: seq<nat>)          // controller: reconcileOne
    | Place(ack: bool)                             // scheduler: handlePlacement
    | RecordStatus(now: int)                       // scheduler: handleStatus
    | StartAssigned(k: nat, outcome: Option<Started>, ack: bool)  // worker: handleAssignment
    | StopAssigned(k: nat, ack: bool)              // worker: handleUnassign
    | Poll(node: nat, id: nat, seen: Option<Status>)   // worker: checkTrackedContainers, one entry
    | Scale(app: nat, replicas: nat)               // API server: replicas_desired
    | Deploy(app: nat, image: string, published: bool) // API server: new revision
    | ChangeNodes(nodes: seq<Node>)                // registrations, heartbeats, liveness sweeps
    | RestartWorker(node: nat)                     // the tracked map is in memory only

  ghost predicate Enabled(s: State, step: Step) {
    match step
    case Reconcile(d, chosen) =>
      IsTarget(s, d) &&
      var active := ActiveOf(s.containers, d);
      (|active| > Desired(s, d) ==>
         OldestChosen(s.containers, active, chosen, Min(|active| - Desired(s, d), |active|)))
    case Place(_) => s.placements != []
    case RecordStatus(_) => s.acked < |s.log|
    case StartAssigned(k, _, _) => k < |s.assigns|
    case StopAssigned(k, _) => k < |s.unassigns|
    case Poll(n, c, _) => (n, c) in s.tracked
    case Scale(a, _) => a < |s.apps|
    case Deploy(a, _, _) => a < |s.apps|
    case ChangeNodes(_) => true
    case RestartWorker(_) => true
  }

  function Repeat(m: PlacementMsg, k: nat): seq<PlacementMsg> { seq(k, _ => m) }

  function RuntimeIdOf(c: Container): string {
    match c.runtimeId case None => "" case Some(r) => r
  }

  function UnassignFor(rows: seq<Container>, chosen: seq<nat>): seq<UnassignMsg>
    requires forall i :: 0 <= i < |chosen| ==> chosen[i] < |rows|
  {
    seq(|chosen|, i requires 0 <= i < |chosen| =>
      UnassignMsg(rows[chosen[i]].node, chosen[i], RuntimeIdOf(rows[chosen[i]])))
  }

  /** UpdateStatus: no precondition on the old status; the stamps keep their first value. */
  function Updated(c: Container, status: Status, runtimeId: string, now: int): Container {
    c.(status := status,
       runtimeId := if runtimeId != "" then Some(runtimeId) else c.runtimeId,
       startedAt := if status.Running? && c.startedAt.None? then Some(now) else c.startedAt,
       stoppedAt := if !Active(status) && c.stoppedAt.None? then Some(now) else c.stoppedAt)
  }

  /** What is left of a queue after the message at k was handled. */
  function Handled<T>(q: seq<T>, k: nat, ack: bool): seq<T>
    requires k < |q|
  {
    if ack then Without(q, k) else q
  }

  function Placed(s: State, ack: bool): State
    requires Accepts(s)
  {
    var m := s.placements[0];
    var n := s.nodes[BestNode(s.nodes, s.containers).value].id;
    s.(placements := if ack then s.placements[1..] else s.placements,
       containers := s.containers + [Container(m.deployment, n, None, Pending, None, None)],
       assigns := s.assigns + [AssignMsg(n, |s.containers|, m.image)])
  }

  function Recorded(s: State, now: int): State
    requires s.acked < |s.log|
  {
    var m := s.log[s.acked];
    if m.assignment < |s.containers| then
      s.(acked := s.acked + 1,
         containers := s.containers[m.assignment :=
           Updated(s.containers[m.assignment], m.status, m.runtimeId, now)])
    else
      s.(acked := s.acked + 1)
  }

  function Reconciled(s: State, d: nat, chosen: seq<nat>): State
    requires IsTarget(s, d)
    requires forall i :: 0 <= i < |chosen| ==> chosen[i] < |s.containers|
  {
    var active := |ActiveOf(s.containers, d)|;
    var desired := Desired(s, d);
    if active < desired then
      s.(placements := s.placements + Repeat(PlacementMsg(d, s.deployments[d].image), desired - active))
    else if active > desired then
      s.(unassigns := s.unassigns + UnassignFor(s.containers, chosen))
    else s
  }

  function HandledAssign(s: State, k: nat, outcome: Option<Started>, ack: bool): State
    requires k < |s.assigns|
  {
    var m := s.assigns[k];
    var rest := s.(assigns := Handled(s.assigns, k, ack));
    match outcome
    case None => rest.(log := s.log + [StatusMsg(m.assignment, "", Crashed)])
    case Some(info) =>
      rest.(log := s.log + [StatusMsg(m.assignment, info.runtimeId, info.status)],
            tracked := s.tracked[(m.node, m.assignment) := Tracked(info.runtimeId, info.status)])
  }

  function HandledUnassign(s: State, k: nat, ack: bool): State
    requires k < |s.unassigns|
  {
    var m := s.unassigns[k];
    s.(unassigns := Handled(s.unassigns, k, ack),
       log := s.log + [StatusMsg(m.assignment, m.runtimeId, Stopped)],
       tracked := s.tracked - {(m.node, m.assignment)})
  }

  function Polled(s: State, n: nat, c: nat, seen: Option<Status>): State
    requires (n, c) in s.tracked
  {
    var t := s.tracked[(n, c)];
    if seen.None? || seen.value == t.lastStatus then s
    else
      s.(log := s.log + [StatusMsg(c, t.runtimeId, seen.value)],
         tracked := s.tracked[(n, c) := t.(lastStatus := seen.value)])
  }

  function Deployed(s: State, a: nat, image: string, published: bool): State
    requires a < |s.apps|
  {
    var app := if image != "" then s.apps[a].(image := image) else s.apps[a];
    var d := Deployment(a, app.org, app.image, !published);
    s.(apps := s.apps[a := app],
       deployments := s.deployments + [d],
       placements := if published then s.placements + [PlacementMsg(|s.deployments|, app.image)]
                     else s.placements)
  }

  ghost function Apply(s: State, step: Step): State
    requires Enabled(s, step)
  {
    match step
    case Reconcile(d, chosen) =>
      if |ActiveOf(s.containers, d)| > Desired(s, d) then Reconciled(s, d, chosen) else Reconciled(s, d, [])
    case Place(ack) =>
      if Accepts(s) then Placed(s, ack) else if ack then s.(placements := s.placements[1..]) else s
    case RecordStatus(now) => Recorded(s, now)
    case StartAssigned(k, outcome, ack) => HandledAssign(s, k, outcome, ack)
    case StopAssigned(k, ack) => HandledUnassign(s, k, ack)
    case Poll(n, c, seen) => Polled(s, n, c, seen)
    case Scale(a, replicas) => s.(apps := s.apps[a := s.apps[a].(replicas := replicas)])
    case Deploy(a, image, published) => Deployed(s, a, image, published)
    case ChangeNodes(nodes) => s.(nodes := nodes)
    case RestartWorker(n) => s.(tracked := map k | k in s.tracked && k.0 != n :: s.tracked[k])
  }

  /** A run: each state is followed by the result of an enabled step. */
  ghost predicate IsRun(states: seq<State>, steps: seq<Step>) {
    && |states| == |steps| + 1
    && forall i :: 0 <= i < |steps| ==> Enabled(states[i], steps[i]) && states[i + 1] == Apply(states[i], steps[i])
  }

  /** Induction over a stretch of a run in which every step satisfies `ok`. */
  lemma {:induction false} RunInduction(
    states: seq<State>, steps: seq<Step>, from: nat, i: nat, inv: State -> bool, ok: (State, Step) -> bool)
    requires IsRun(states, steps) && from <= i < |states| && inv(states[from])
    requires forall j :: from <= j < i ==> ok(states[j], steps[j])
    requires forall s, step :: inv(s) && ok(s, step) && Enabled(s, step) ==> inv(Apply(s, step))
    ensures inv(states[i])
  {
    if i > from {
      RunInduction(states, steps, from, i - 1, inv, ok);
      assert ok(states[i - 1], steps[i - 1]);
    }
  }

  lemma ExtendRun(states: seq<State>, steps: seq<Step>, step: Step, t: State)
    requires IsRun(states, steps) && Enabled(states[|steps|], step) && t == Apply(states[|steps|], step)
    ensures IsRun(states + [t], steps + [step])
  {
  }

  /** Nothing placed, nothing in flight, nothing tracked: the platform before its first deploy. */
  ghost predicate Initial(s: State) {
    && s.deployments == [] && s.containers == []
    && s.placements == [] && s.assigns == [] && s.unassigns == []
    && s.log == [] && s.acked == 0 && s.tracked == map[]
    && forall i :: 0 <= i < |s.apps| ==> s.apps[i].replicas >= 0
  }
}
