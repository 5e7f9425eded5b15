/**
  The service-instance controller: an idempotent reconcile from running containers to
  service_instances rows, and its composition with the load balancer's registry.
*/
module ServiceInstances {
  import opened Basics
  import opened Registry
  import opened RegistryRuns
  import opened CacheSync
  import Cluster

  /**
    A container as the controller's queries see it. `live` says that its deployment is its
    application's latest one and has not failed or been rolled back.
  */
  datatype ContainerRow = ContainerRow(app: nat, running: bool, live: bool, nodeIp: string)

  type Containers = map<nat, ContainerRow>

  /** A service_instances row; a service is named by its application. */
  datatype InstanceRow = InstanceRow(app: nat, ip: string, port: int, healthy: bool, lastSeen: int)

  datatype Tables = Tables(services: map<nat, string>, instances: map<nat, InstanceRow>, ports: map<nat, int>)

  /** ListRunningCandidates. */
  function Candidates(cs: Containers): set<nat> { set c | c in cs && cs[c].running && cs[c].live }

  /** ListOrphanedInstances: rows whose container is no longer running. */
  function Orphans(cs: Containers, instances: map<nat, InstanceRow>): set<nat> {
    set c | c in instances && c in cs && !cs[c].running
  }

  /** Candidates with a reported port whose service exists once the tick is over. */
  function Refreshed(cs: Containers, t: Tables, services: map<nat, string>): set<nat> {
    set c | c in Candidates(cs) && c in t.ports && cs[c].app in services
  }

  function FreshRow(cs: Containers, t: Tables, c: nat, now: int): InstanceRow
    requires c in cs && c in t.ports
  {
    InstanceRow(cs[c].app, cs[c].nodeIp, t.ports[c], true, now)
  }

  /** The instance rows after refreshing the given candidates. */
  function WithRefreshed(cs: Containers, t: Tables, up: set<nat>, now: int): map<nat, InstanceRow>
    requires forall c :: c in up ==> c in cs && c in t.ports
  {
    map c | c in up + t.instances.Keys :: if c in up then FreshRow(cs, t, c, now) else t.instances[c]
  }

  /** services.dns_name is unique. */
  ghost predicate UniqueNames(services: map<nat, string>) {
    forall a, b :: a in services && b in services && services[a] == services[b] ==> a == b
  }

  /** Service rows are only ever added, each under its application's own name, and names stay unique. */
  ghost predicate NamesGrow(before: map<nat, string>, after: map<nat, string>, dnsOf: nat -> string) {
    && (forall a :: a in before ==> a in after && after[a] == before[a])
    && (forall a :: a in after && a !in before ==> after[a] == dnsOf(a))
    && (UniqueNames(before) ==> UniqueNames(after))
  }

  /** A candidate is skipped only for want of a port or because another service has its name. */
  ghost predicate SkippedForName(cs: Containers, t: Tables, services: map<nat, string>, dnsOf: nat -> string, c: nat)
    requires c in cs
  {
    c in t.ports && cs[c].app !in services ==> dnsOf(cs[c].app) in services.Values
  }

  /** The applications whose service a tick may have to create. */
  function CandidateApps(cs: Containers, t: Tables): set<nat> {
    set c | c in Candidates(cs) && c in t.ports :: cs[c].app
  }

  /** What one tick does to the tables and which events it publishes, in whatever order rows are returned. */
  ghost predicate Ticks(cs: Containers, t: Tables, now: int, dnsOf: nat -> string, t': Tables, published: set<nat>) {
    var up := Refreshed(cs, t, t'.services);
    var rows := WithRefreshed(cs, t, up, now);
    var gone := Orphans(cs, rows);
    && NamesGrow(t.services, t'.services, dnsOf)
    && t'.services.Keys <= t.services.Keys + CandidateApps(cs, t)
    && (forall c :: c in Candidates(cs) ==> SkippedForName(cs, t, t'.services, dnsOf, c))
    && t'.instances == rows - gone
    && t'.ports == t.ports - gone
    && published == up + gone
  }

  lemma RefreshOneMore(cs: Containers, t: Tables, up: set<nat>, c: nat, now: int)
    requires forall x :: x in up ==> x in cs && x in t.ports
    requires c in cs && c in t.ports
    ensures WithRefreshed(cs, t, up, now)[c := FreshRow(cs, t, c, now)] == WithRefreshed(cs, t, up + {c}, now)
  {
  }

  /** The candidates in `done` have been handled; those in `up` were refreshed. */
  ghost predicate Progress(cs: Containers, t: Tables, done: set<nat>, up: set<nat>, services: map<nat, string>, dnsOf: nat -> string) {
    && up <= done <= Candidates(cs)
    && NamesGrow(t.services, services, dnsOf)
    && services.Keys <= t.services.Keys + CandidateApps(cs, t)
    && (forall c :: c in up ==> c in t.ports && cs[c].app in services)
    && (forall c :: c in done && c in t.ports && c !in up ==>
          cs[c].app !in services && dnsOf(cs[c].app) in services.Values)
  }

  lemma ProgressNext(cs: Containers, t: Tables, done: set<nat>, up: set<nat>, services: map<nat, string>,
                     services': map<nat, string>, dnsOf: nat -> string, c: nat)
    requires Progress(cs, t, done, up, services, dnsOf) && c in Candidates(cs)
    requires NamesGrow(services, services', dnsOf) && SkippedForName(cs, t, services', dnsOf, c)
    requires forall a :: a in services' && a !in services ==>
               c in t.ports && a == cs[c].app && dnsOf(a) !in services.Values
    ensures Progress(cs, t, done + {c}, if c in t.ports && cs[c].app in services' then up + {c} else up, services', dnsOf)
  {
    forall v | v in services.Values ensures v in services'.Values {
      var a :| a in services && services[a] == v;
      assert services'[a] == v;
    }
    assert c in t.ports ==> cs[c].app in CandidateApps(cs, t);
  }

  lemma ProgressEnd(cs: Containers, t: Tables, up: set<nat>, services: map<nat, string>, dnsOf: nat -> string)
    requires Progress(cs, t, Candidates(cs), up, services, dnsOf)
    ensures up == Refreshed(cs, t, services)
    ensures forall c :: c in Candidates(cs) ==> SkippedForName(cs, t, services, dnsOf, c)
  {
  }

  class Controller {
    var services: map<nat, string>
    var instances: map<nat, InstanceRow>
    var ports: map<nat, int>

    ghost function View(): Tables
      reads this
    {
      Tables(services, instances, ports)
    }

    /** handleStatus: only a running report with a port updates the cache. */
    method HandleStatus(assignment: nat, running: bool, hostPorts: seq<int>)
      modifies this`ports
      ensures ports == if running && hostPorts != [] then old(ports)[assignment := hostPorts[0]] else old(ports)
    {
      if !running || |hostPorts| == 0 {
        return;
      }
      ports := ports[assignment := hostPorts[0]];
    }

    /** GetOrCreate: an existing row wins; a new one fails if another service has the name. */
    method GetOrCreate(app: nat, dnsOf: nat -> string) returns (ok: bool)
      modifies this`services
      ensures ok <==> app in services
      ensures !ok ==> dnsOf(app) in services.Values
      ensures NamesGrow(old(services), services, dnsOf)
      ensures forall a :: a in services && a !in old(services) ==> a == app && dnsOf(a) !in old(services).Values
    {
      if app in services {
        return true;
      }
      if dnsOf(app) in services.Values {
        return false;
      }
      services := services[app := dnsOf(app)];
      return true;
    }

    /** reconcileCandidate: skip until a port is known, then refresh the row and publish. */
    method ReconcileCandidate(cs: Containers, c: nat, now: int, dnsOf: nat -> string) returns (published: bool)
      requires c in cs
      modifies this`services, this`instances
      ensures published <==> c in ports && cs[c].app in services
      ensures SkippedForName(cs, old(View()), services, dnsOf, c)
      ensures NamesGrow(old(services), services, dnsOf)
      ensures forall a :: a in services && a !in old(services) ==>
                c in ports && a == cs[c].app && dnsOf(a) !in old(services).Values
      ensures instances == if published then old(instances)[c := FreshRow(cs, old(View()), c, now)] else old(instances)
    {
      if c !in ports {
        return false;
      }
      var ok := GetOrCreate(cs[c].app, dnsOf);
      if !ok {
        return false;
      }
      instances := instances[c := InstanceRow(cs[c].app, cs[c].nodeIp, ports[c], true, now)];
      return true;
    }

    /** reconcileCandidate within the tick: one more candidate of t is handled. */
    method ReconcileNext(cs: Containers, c: nat, now: int, dnsOf: nat -> string, ghost t: Tables, ghost done: set<nat>, ghost up: set<nat>)
      returns (ok: bool)
      requires ports == t.ports && c in Candidates(cs)
      requires Progress(cs, t, done, up, services, dnsOf) && instances == WithRefreshed(cs, t, up, now)
      modifies this`services, this`instances
      ensures Progress(cs, t, done + {c}, if ok then up + {c} else up, services, dnsOf)
      ensures instances == WithRefreshed(cs, t, if ok then up + {c} else up, now)
    {
      ghost var before := services;
      ok := ReconcileCandidate(cs, c, now, dnsOf);
      ProgressNext(cs, t, done, up, before, services, dnsOf, c);
      if ok {
        RefreshOneMore(cs, t, up, c, now);
      }
    }

    /** The first half of tick: every running candidate, in any order. */
    method ReconcileAll(cs: Containers, now: int, dnsOf: nat -> string) returns (published: seq<nat>)
      modifies this`services, this`instances
      ensures Progress(cs, old(View()), Candidates(cs), Members(published), services, dnsOf)
      ensures instances == WithRefreshed(cs, old(View()), Members(published), now)
    {
      ghost var t := View();
      var todo := Candidates(cs);
      ghost var done: set<nat>, up: set<nat> := {}, {};
      published := [];
      assert instances == WithRefreshed(cs, t, up, now);
      while todo != {}
        invariant done + todo == Candidates(cs) && up == Members(published)
        invariant Progress(cs, t, done, up, services, dnsOf)
        invariant instances == WithRefreshed(cs, t, up, now)
        decreases todo
      {
        var c :| c in todo;
        var ok := ReconcileNext(cs, c, now, dnsOf, t, done, up);
        MoveOver(done, todo, c);
        MembersAppend(published, c);
        todo, done := todo - {c}, done + {c};
        if ok {
          published, up := published + [c], up + {c};
        }
      }
    }

    /** The second half: delete the rows and cached ports of containers that stopped running. */
    method DeleteOrphans(cs: Containers) returns (published: seq<nat>)
      modifies this`instances, this`ports
      ensures Members(published) == Orphans(cs, old(instances))
      ensures instances == old(instances) - Members(published) && ports == old(ports) - Members(published)
    {
      var todo := Orphans(cs, instances);
      ghost var all := todo;
      published := [];
      assert Members(published) == {};
      while todo != {}
        invariant todo <= all && Members(published) == all - todo
        invariant instances == old(instances) - Members(published) && ports == old(ports) - Members(published)
        decreases todo
      {
        var c :| c in todo;
        instances := instances - {c};
        ports := ports - {c};
        assert Members(published + [c]) == Members(published) + {c};
        published := published + [c];
        todo := todo - {c};
      }
    }

    /** tick: refresh the candidates, then drop what is no longer running; each change is published. */
    method Tick(cs: Containers, now: int, dnsOf: nat -> string) returns (published: seq<nat>)
      modifies this
      ensures Ticks(cs, old(View()), now, dnsOf, View(), Members(published))
    {
      ghost var t := View();
      var refreshed := ReconcileAll(cs, now, dnsOf);
      ProgressEnd(cs, t, Members(refreshed), services, dnsOf);
      var orphaned := DeleteOrphans(cs);
      published := refreshed + orphaned;
      assert Members(published) == Members(refreshed) + Members(orphaned);
    }
  }

  // -- what a tick achieves -----------------------------------------------------------

  /** Rows belong to existing containers and name their container's own service. */
  ghost predicate RowsOwned(cs: Containers, t: Tables) {
    forall c :: c in t.instances ==> c in cs && t.instances[c].app == cs[c].app && cs[c].app in t.services
  }

  /** Whatever rows a tick leaves belong to running containers. */
  lemma TickKeepsOwned(cs: Containers, t: Tables, now: int, dnsOf: nat -> string, t': Tables, published: set<nat>)
    requires RowsOwned(cs, t) && Ticks(cs, t, now, dnsOf, t', published)
    ensures RowsOwned(cs, t')
    ensures forall c :: c in t'.instances ==> c in cs && cs[c].running
  {
  }

  /**
    After a tick over an unchanged container table: every row's container is running, and every running
    container of a live deployment with a reported port has a healthy row with its node's address and that port,
    refreshed now, unless the name its service would need belongs to another service.
  */
  lemma TickReconciles(cs: Containers, t: Tables, now: int, dnsOf: nat -> string, t': Tables, published: set<nat>)
    requires RowsOwned(cs, t) && Ticks(cs, t, now, dnsOf, t', published)
    ensures RowsOwned(cs, t')
    ensures forall c :: c in t'.instances ==> c in cs && cs[c].running
    ensures forall c :: c in cs && cs[c].running && cs[c].live && c in t.ports ==>
              if cs[c].app in t'.services then
                c in t'.instances && t'.instances[c] == InstanceRow(cs[c].app, cs[c].nodeIp, t.ports[c], true, now)
              else dnsOf(cs[c].app) in t'.services.Values
    ensures forall c :: c in cs && cs[c].running && c in t.ports ==> c in t'.ports && t'.ports[c] == t.ports[c]
  {
    TickKeepsOwned(cs, t, now, dnsOf, t', published);
    forall c | c in Candidates(cs) && c in t.ports && cs[c].app !in t'.services
      ensures dnsOf(cs[c].app) in t'.services.Values
    {
      assert SkippedForName(cs, t, t'.services, dnsOf, c);
    }
  }

  /** Row and cached port of c are what they were. */
  ghost predicate Untouched(t: Tables, t': Tables, c: nat) {
    && (c in t'.instances <==> c in t.instances) && (c in t.instances ==> t'.instances[c] == t.instances[c])
    && (c in t'.ports <==> c in t.ports) && (c in t.ports ==> t'.ports[c] == t.ports[c])
  }

  /**
    A tick, container by container. A running container of a live deployment with a reported port gets a
    healthy row with its node's address and that port, and an event, unless its service is missing for want
    of a free name. A container that runs but is not live, or has no port, keeps whatever it had and
    gets no event. A container that does not run loses row and port if it had a row, with an event.
  */
  lemma TickRow(cs: Containers, t: Tables, now: int, dnsOf: nat -> string, t': Tables, published: set<nat>, c: nat)
    requires RowsOwned(cs, t) && Ticks(cs, t, now, dnsOf, t', published) && c in cs
    ensures cs[c].running && cs[c].live && c in t.ports && cs[c].app in t'.services ==>
              && c in t'.instances && t'.instances[c] == InstanceRow(cs[c].app, cs[c].nodeIp, t.ports[c], true, now)
              && c in t'.ports && t'.ports[c] == t.ports[c] && c in published
    ensures cs[c].running && cs[c].live && c in t.ports && cs[c].app !in t'.services ==>
              dnsOf(cs[c].app) in t'.services.Values && Untouched(t, t', c) && c !in published
    ensures cs[c].running && (!cs[c].live || c !in t.ports) ==> Untouched(t, t', c) && c !in published
    ensures !cs[c].running && c in t.instances ==> c !in t'.instances && c !in t'.ports && c in published
    ensures !cs[c].running && c !in t.instances ==> Untouched(t, t', c) && c !in published
  {
    if c in Candidates(cs) {
      assert SkippedForName(cs, t, t'.services, dnsOf, c);
    }
  }

  /** Services a tick adds are those of running, live containers with a port, under the application's own name. */
  lemma TickServices(cs: Containers, t: Tables, now: int, dnsOf: nat -> string, t': Tables, published: set<nat>, a: nat)
    requires Ticks(cs, t, now, dnsOf, t', published)
    ensures a in t.services ==> a in t'.services && t'.services[a] == t.services[a]
    ensures a in t'.services && a !in t.services ==>
              t'.services[a] == dnsOf(a) &&
              exists c :: c in cs && cs[c].app == a && cs[c].running && cs[c].live && c in t.ports
  {
    if a in t'.services && a !in t.services {
      assert a in t'.services.Keys && a in CandidateApps(cs, t);
      var c :| c in Candidates(cs) && c in t.ports && cs[c].app == a;
      assert c in cs && cs[c].app == a;
    }
  }

  // -- the cluster's containers as the controller sees them ---------------------------

  /** The containers of the cluster with the joins of both queries made; `ipOf` is the nodes' address column. */
  function SeenIn(s: Cluster.State, ipOf: nat -> string): Containers {
    map c: nat | c < |s.containers| && s.containers[c].deployment < |s.deployments| ::
      ContainerRow(s.deployments[s.containers[c].deployment].app, s.containers[c].status.Running?,
                   Cluster.IsTarget(s, s.containers[c].deployment), ipOf(s.containers[c].node))
  }

  /** The deployment is its application's last one and has not failed. */
  ghost predicate LastUnfailed(s: Cluster.State, d: nat) {
    && d < |s.deployments| && s.deployments[d].app < |s.apps| && !s.deployments[d].failed
    && forall e :: d < e < |s.deployments| ==> s.deployments[e].app != s.deployments[d].app
  }

  /**
    A tick over the cluster: a running container of its application's last deployment, if that has not
    failed, is served at its node's address and reported port unless the service name is taken; one of an
    earlier or failed deployment keeps what it had; one that does not run is not served.
  */
  lemma TickServesLatest(
    s: Cluster.State, ipOf: nat -> string, t: Tables, now: int, dnsOf: nat -> string, t': Tables, published: set<nat>, c: nat)
    requires RowsOwned(SeenIn(s, ipOf), t) && Ticks(SeenIn(s, ipOf), t, now, dnsOf, t', published)
    requires c < |s.containers| && s.containers[c].deployment < |s.deployments|
    ensures var row := s.containers[c];
            var app := s.deployments[row.deployment].app;
            if row.status != Cluster.Running then c !in t'.instances
            else if LastUnfailed(s, row.deployment) && c in t.ports then
              if app in t'.services then
                c in t'.instances && t'.instances[c] == InstanceRow(app, ipOf(row.node), t.ports[c], true, now)
              else dnsOf(app) in t'.services.Values && c !in t'.instances
            else Untouched(t, t', c) && c !in published
  {
    TickRow(SeenIn(s, ipOf), t, now, dnsOf, t', published, c);
  }

  // -- a second tick ------------------------------------------------------------------

  /** The tables already say what a tick over these containers would make them say. */
  ghost predicate Reconciled(cs: Containers, t: Tables, dnsOf: nat -> string) {
    && UniqueNames(t.services)
    && (forall c :: c in t.instances ==> c in cs && cs[c].running)
    && (forall c :: c in Candidates(cs) && c in t.ports ==>
          if cs[c].app in t.services then
            c in t.instances && t.instances[c] == FreshRow(cs, t, c, t.instances[c].lastSeen)
          else c !in t.instances && dnsOf(cs[c].app) in t.services.Values)
  }

  lemma ReconciledServices(cs: Containers, t: Tables, now: int, dnsOf: nat -> string, t': Tables, published: set<nat>)
    requires Reconciled(cs, t, dnsOf) && Ticks(cs, t, now, dnsOf, t', published)
    ensures t'.services == t.services
  {
    assert t'.services.Keys == t.services.Keys;
  }

  /** A tick over reconciled tables changes nothing but last_seen_at. */
  lemma ReconciledTick(cs: Containers, t: Tables, now: int, dnsOf: nat -> string, t': Tables, published: set<nat>)
    requires Reconciled(cs, t, dnsOf) && Ticks(cs, t, now, dnsOf, t', published)
    ensures t'.services == t.services && t'.ports == t.ports
    ensures t'.instances == map c | c in t.instances ::
              if c in Candidates(cs) && c in t.ports then t.instances[c].(lastSeen := now) else t.instances[c]
  {
    ReconciledServices(cs, t, now, dnsOf, t', published);
    var up := Refreshed(cs, t, t.services);
    assert forall c :: c in up ==> c in t.instances;
    assert Orphans(cs, WithRefreshed(cs, t, up, now)) == {};
    assert t.ports - {} == t.ports;
  }

  /** A second tick over the same containers changes nothing but last_seen_at. */
  lemma SecondTickIdempotent(cs: Containers, t: Tables, now: int, dnsOf: nat -> string, t': Tables, p: set<nat>,
                             later: int, t'': Tables, p': set<nat>)
    requires RowsOwned(cs, t) && UniqueNames(t.services) && Ticks(cs, t, now, dnsOf, t', p)
    requires Ticks(cs, t', later, dnsOf, t'', p')
    ensures t''.services == t'.services && t''.ports == t'.ports
    ensures t''.instances == map c | c in t'.instances ::
              if c in Candidates(cs) && c in t'.ports then t'.instances[c].(lastSeen := later) else t'.instances[c]
  {
    TickReconciles(cs, t, now, dnsOf, t', p);
    ReconciledTick(cs, t', later, dnsOf, t'', p');
  }

  // -- composition with the load balancer ---------------------------------------------

  /** The rows the load balancer's queries join: an instance and its service's name. */
  ghost function Joined(t: Tables): Table {
    map c | c in t.instances && t.instances[c].app in t.services ::
      Row(t.services[t.instances[c].app], t.instances[c].ip, t.instances[c].port, t.instances[c].healthy)
  }

  function RowOf(t: Table, c: nat): Option<Row> { if c in t then Some(t[c]) else None }

  /** A tick changes the joined rows of published containers only. */
  lemma TickPublishesChanges(cs: Containers, t: Tables, now: int, dnsOf: nat -> string, t': Tables, published: set<nat>, c: nat)
    requires RowsOwned(cs, t) && Ticks(cs, t, now, dnsOf, t', published) && c !in published
    ensures RowOf(Joined(t'), c) == RowOf(Joined(t), c)
  {
    TickReconciles(cs, t, now, dnsOf, t', published);
  }

  /**
    A tick as the load balancer lives through it: the row of each published container is written once or
    more with what it will be, and in between events are handled, in any order and against whatever
    has been written so far, resyncs and sweeps run, and instances are marked.
  */
  ghost predicate IsTickHistory(
    states: seq<System>, events: seq<Event>, times: seq<int>, home: nat -> string,
    before: Table, after: Table, published: set<nat>)
  {
    && IsHistory(states, events, times, home) && states[0].table == before
    && (forall i :: 0 <= i < |events| && events[i].Change? ==>
          events[i].c in published && events[i].row == RowOf(after, events[i].c))
    && (forall c :: c in published ==> Written(events, |events|, c))
  }

  /** The row of c is written before event n. */
  ghost predicate Written(events: seq<Event>, n: nat, c: nat) {
    exists i :: 0 <= i < n && i < |events| && events[i].Change? && events[i].c == c
  }

  lemma {:induction false} WrittenRows(
    states: seq<System>, events: seq<Event>, times: seq<int>, home: nat -> string,
    before: Table, after: Table, published: set<nat>, n: nat, c: nat)
    requires IsTickHistory(states, events, times, home, before, after, published) && n <= |events|
    ensures RowOf(states[n].table, c) == if Written(events, n, c) then RowOf(after, c) else RowOf(before, c)
  {
    if n > 0 {
      WrittenRows(states, events, times, home, before, after, published, n - 1, c);
      var ev := events[n - 1];
      assert Happens(states[n - 1], ev, times[n - 1], states[n]);
      assert Written(events, n, c) <==> Written(events, n - 1, c) || (ev.Change? && ev.c == c);
    }
  }

  lemma SameTable(a: Table, b: Table)
    requires forall c :: RowOf(a, c) == RowOf(b, c)
    ensures a == b
  {
    forall c ensures c in a <==> c in b {
      assert RowOf(a, c) == RowOf(b, c);
    }
    forall c | c in a ensures a[c] == b[c] {
      assert RowOf(a, c) == RowOf(b, c);
    }
  }

  /** The table ends as the tick leaves it, whatever came in between. */
  lemma TickHistoryEnds(
    states: seq<System>, events: seq<Event>, times: seq<int>, home: nat -> string,
    before: Table, after: Table, published: set<nat>)
    requires IsTickHistory(states, events, times, home, before, after, published)
    requires forall c :: c !in published ==> RowOf(after, c) == RowOf(before, c)
    ensures states[|events|].table == after
  {
    forall c ensures RowOf(states[|events|].table, c) == RowOf(after, c) {
      WrittenRows(states, events, times, home, before, after, published, |events|, c);
    }
    SameTable(states[|events|].table, after);
  }

  /** What agreement with the tables a tick leaves means for one container. */
  lemma ServedAfterTick(cs: Containers, t: Tables, now: int, dnsOf: nat -> string, t': Tables, published: set<nat>, r: Reg, c: nat)
    requires RowsOwned(cs, t) && Ticks(cs, t, now, dnsOf, t', published) && Agrees(r, Joined(t'), c)
    ensures c in cs && cs[c].running && cs[c].live && c in t.ports && cs[c].app in t'.services ==>
              var dns := t'.services[cs[c].app];
              dns in r.byDns && Instance(c, cs[c].nodeIp, t.ports[c]) in r.byDns[dns]
    ensures Registered(r.byDns, c) ==> c in cs && cs[c].running
  {
    AgreementMeans(r, Joined(t'), c);
    TickKeepsOwned(cs, t, now, dnsOf, t', published);
    if c in cs {
      TickRow(cs, t, now, dnsOf, t', published, c);
    }
  }

  /**
    End to end: take a registry that agreed with the tables before a tick about c, and any history in which
    the tick's rows are written one by one while events are handled. If some event about c, or a resync,
    comes after the last write and the last sweep of c, the registry says about c what the tables say: a
    running container of a live deployment with a port and a service is listed under that service with its
    node's address and that port, and only a running container is listed at all.
  */
  lemma RegistryFollowsTick(
    cs: Containers, t: Tables, now: int, dnsOf: nat -> string, t': Tables, published: set<nat>,
    states: seq<System>, events: seq<Event>, times: seq<int>, home: nat -> string, c: nat)
    requires RowsOwned(cs, t) && Ticks(cs, t, now, dnsOf, t', published)
    requires IsTickHistory(states, events, times, home, Joined(t), Joined(t'), published)
    requires Agrees(states[0].reg, Joined(t), c) && CaughtUp(states, events, times, c)
    ensures var last := states[|events|];
            && last.table == Joined(t') && Agrees(last.reg, Joined(t'), c)
            && (c in cs && cs[c].running && cs[c].live && c in t.ports && cs[c].app in t'.services ==>
                  var dns := t'.services[cs[c].app];
                  dns in last.reg.byDns && Instance(c, cs[c].nodeIp, t.ports[c]) in last.reg.byDns[dns])
            && (Registered(last.reg.byDns, c) ==> c in cs && cs[c].running)
  {
    forall x | x !in published ensures RowOf(Joined(t'), x) == RowOf(Joined(t), x) {
      TickPublishesChanges(cs, t, now, dnsOf, t', published, x);
    }
    TickHistoryEnds(states, events, times, home, Joined(t), Joined(t'), published);
    CacheAgrees(states, events, times, home, c);
    ServedAfterTick(cs, t, now, dnsOf, t', published, states[|events|].reg, c);
  }
}
