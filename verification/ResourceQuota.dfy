/**
  Layer 1 of the quota scheme: the API server's check of an organization's totals inside the
  transaction that scales, deploys, creates or deletes an application.
*/
module ResourceQuota {
  import opened Basics

  /** `active` is the number of active containers of the application's latest deployment, or 0. */
  datatype App = App(replicas: nat, cpu: nat, memory: nat, active: nat)

  datatype Ceilings = Ceilings(containers: int, cpu: int, memory: int)

  /** `containers` counts the organization's active containers, of whatever deployment. */
  datatype Org = Org(max: Ceilings, apps: seq<App>, containers: nat)

  // -- CurrentUsage -------------------------------------------------------------------

  function CpuShare(a: App): nat { a.cpu * a.replicas }

  function MemoryShare(a: App): nat { a.memory * a.replicas }

  function DeclaredCpu(apps: seq<App>): nat {
    if apps == [] then 0 else DeclaredCpu(apps[..|apps| - 1]) + CpuShare(apps[|apps| - 1])
  }

  function DeclaredMemory(apps: seq<App>): nat {
    if apps == [] then 0 else DeclaredMemory(apps[..|apps| - 1]) + MemoryShare(apps[|apps| - 1])
  }

  // -- checkResourceQuota -------------------------------------------------------------

  datatype Totals = Totals(containers: int, cpu: int, memory: int)

  /** The totals the check projects: the application's share taken out and put back at the new count. */
  function Projected(o: Org, k: nat, replicas: nat): Totals
    requires k < |o.apps|
  {
    var a := o.apps[k];
    Totals(o.containers - a.active + replicas,
           DeclaredCpu(o.apps) - CpuShare(a) + CpuShare(a.(replicas := replicas)),
           DeclaredMemory(o.apps) - MemoryShare(a) + MemoryShare(a.(replicas := replicas)))
  }

  predicate Admits(o: Org, k: nat, replicas: nat)
    requires k < |o.apps|
  {
    var t := Projected(o, k, replicas);
    t.containers <= o.max.containers && t.cpu <= o.max.cpu && t.memory <= o.max.memory
  }

  datatype Request =
    | Create                            // replicas 1, cpu and memory 0
    | Scale(k: nat, replicas: nat)
    | Deploy(k: nat)                    // checked at the current replica count; writes no total
    | Delete(k: nat, remaining: nat)    // its containers go with it, of whatever deployment
    | Containers(total: nat, active: seq<nat>)  // placements and terminations between requests

  predicate Enabled(o: Org, req: Request) {
    match req
    case Create => true
    case Scale(k, _) => k < |o.apps|
    case Deploy(k) => k < |o.apps|
    case Delete(k, remaining) => k < |o.apps| && remaining <= o.containers
    case Containers(_, active) => |active| == |o.apps|
  }

  function Counted(apps: seq<App>, active: seq<nat>): seq<App>
    requires |active| == |apps|
  {
    seq(|apps|, i requires 0 <= i < |apps| => apps[i].(active := active[i]))
  }

  /** A rejected request leaves the tables as they were. */
  function Apply(o: Org, req: Request): Org
    requires Enabled(o, req)
  {
    match req
    case Create => o.(apps := o.apps + [App(1, 0, 0, 0)])
    case Scale(k, replicas) =>
      if Admits(o, k, replicas) then o.(apps := o.apps[k := o.apps[k].(replicas := replicas)]) else o
    case Deploy(k) => o
    case Delete(k, remaining) => o.(apps := Without(o.apps, k), containers := remaining)
    case Containers(total, active) => o.(apps := Counted(o.apps, active), containers := total)
  }

  // -- the arithmetic -----------------------------------------------------------------

  /** Each sum is the sum of the others plus the application's own share. */
  lemma {:induction false} SharesAdd(apps: seq<App>, k: nat)
    requires k < |apps|
    ensures DeclaredCpu(apps) == DeclaredCpu(Without(apps, k)) + CpuShare(apps[k])
    ensures DeclaredMemory(apps) == DeclaredMemory(Without(apps, k)) + MemoryShare(apps[k])
  {
    var n := |apps| - 1;
    if k == n {
      assert Without(apps, k) == apps[..n];
    } else {
      SharesAdd(apps[..n], k);
      WithoutFront(apps, k);
    }
  }

  /**
    After an accepted scale, recomputing the organization's usage gives exactly the cpu and memory
    totals that were checked, so both are within the ceilings.
  */
  lemma ScaleMatchesCheck(o: Org, k: nat, replicas: nat)
    requires k < |o.apps| && Admits(o, k, replicas)
    ensures var t := Apply(o, Scale(k, replicas));
            && DeclaredCpu(t.apps) == Projected(o, k, replicas).cpu <= o.max.cpu
            && DeclaredMemory(t.apps) == Projected(o, k, replicas).memory <= o.max.memory
  {
    var t := Apply(o, Scale(k, replicas));
    SharesAdd(o.apps, k);
    SharesAdd(t.apps, k);
    assert Without(t.apps, k) == Without(o.apps, k);
  }

  /**
    The check, exactly: a replica count is accepted if and only if the other containers leave room for it and
    the declared cpu and memory, recomputed with it, are within their ceilings; then it is what is stored.
  */
  lemma ScaleAcceptedIff(o: Org, k: nat, replicas: nat)
    requires k < |o.apps|
    ensures var after := o.apps[k := o.apps[k].(replicas := replicas)];
            var fits := o.containers + replicas <= o.max.containers + o.apps[k].active &&
                        DeclaredCpu(after) <= o.max.cpu && DeclaredMemory(after) <= o.max.memory;
            Apply(o, Scale(k, replicas)) == if fits then o.(apps := after) else o
  {
    var after := o.apps[k := o.apps[k].(replicas := replicas)];
    SharesAdd(o.apps, k);
    SharesAdd(after, k);
    assert Without(after, k) == Without(o.apps, k);
  }

  lemma DoubleProduct(x: int, y: int)
    ensures x * (2 * y) == x * y + x * y
  {
  }

  lemma DoubleShare(a: App)
    ensures CpuShare(a) == a.cpu * a.replicas && MemoryShare(a) == a.memory * a.replicas
    ensures CpuShare(a.(replicas := 2 * a.replicas)) == CpuShare(a) + CpuShare(a)
    ensures MemoryShare(a.(replicas := 2 * a.replicas)) == MemoryShare(a) + MemoryShare(a)
  {
    DoubleProduct(a.cpu, a.replicas);
    DoubleProduct(a.memory, a.replicas);
  }

  lemma DoubledSums(apps: seq<App>, k: nat)
    requires k < |apps|
    ensures DeclaredCpu([apps[k]]) == CpuShare(apps[k]) && DeclaredMemory([apps[k]]) == MemoryShare(apps[k])
    ensures var doubled := apps[k := apps[k].(replicas := 2 * apps[k].replicas)];
            && DeclaredCpu(doubled) == DeclaredCpu(apps) + CpuShare(apps[k])
            && DeclaredMemory(doubled) == DeclaredMemory(apps) + MemoryShare(apps[k])
  {
    var a := apps[k];
    var doubled := apps[k := a.(replicas := 2 * a.replicas)];
    assert [a][..0] == [];
    DoubleShare(a);
    SharesAdd(apps, k);
    SharesAdd(doubled, k);
    assert Without(doubled, k) == Without(apps, k);
  }

  /** What an application declares counts once per replica: alone it is the product, and doubling the replicas adds it again. */
  lemma DeclaredPerReplica(apps: seq<App>, k: nat)
    requires k < |apps|
    ensures DeclaredCpu([apps[k]]) == apps[k].cpu * apps[k].replicas
    ensures DeclaredMemory([apps[k]]) == apps[k].memory * apps[k].replicas
    ensures var doubled := apps[k := apps[k].(replicas := 2 * apps[k].replicas)];
            && DeclaredCpu(doubled) == DeclaredCpu(apps) + apps[k].cpu * apps[k].replicas
            && DeclaredMemory(doubled) == DeclaredMemory(apps) + apps[k].memory * apps[k].replicas
  {
    DoubledSums(apps, k);
    DoubleShare(apps[k]);
  }

  function TotalActive(apps: seq<App>): nat {
    if apps == [] then 0 else TotalActive(apps[..|apps| - 1]) + apps[|apps| - 1].active
  }

  lemma {:induction false} ActiveShare(apps: seq<App>, k: nat)
    requires k < |apps|
    ensures TotalActive(apps) == TotalActive(Without(apps, k)) + apps[k].active
  {
    var n := |apps| - 1;
    if k == n {
      assert Without(apps, k) == apps[..n];
    } else {
      ActiveShare(apps[..n], k);
      WithoutFront(apps, k);
    }
  }

  /**
    What the container projection means: if only latest deployments have active containers, it is
    the other applications' containers plus the replicas asked for.
  */
  lemma ProjectionCountsOthers(o: Org, k: nat, replicas: nat)
    requires k < |o.apps| && o.containers == TotalActive(o.apps)
    ensures Projected(o, k, replicas).containers == TotalActive(Without(o.apps, k)) + replicas
  {
    ActiveShare(o.apps, k);
  }

  // -- runs ---------------------------------------------------------------------------

  ghost predicate DeclaredWithin(o: Org) {
    DeclaredCpu(o.apps) <= o.max.cpu && DeclaredMemory(o.apps) <= o.max.memory
  }

  ghost predicate IsRun(states: seq<Org>, reqs: seq<Request>) {
    && |states| == |reqs| + 1
    && forall i :: 0 <= i < |reqs| ==> Enabled(states[i], reqs[i]) && states[i + 1] == Apply(states[i], reqs[i])
  }

  lemma {:induction false} CountedSums(apps: seq<App>, active: seq<nat>)
    requires |active| == |apps|
    ensures DeclaredCpu(Counted(apps, active)) == DeclaredCpu(apps)
    ensures DeclaredMemory(Counted(apps, active)) == DeclaredMemory(apps)
  {
    if apps != [] {
      var n := |apps| - 1;
      CountedSums(apps[..n], active[..n]);
      assert Counted(apps, active)[..n] == Counted(apps[..n], active[..n]);
    }
  }

  lemma CreateDeclaresNothing(apps: seq<App>)
    ensures DeclaredCpu(apps + [App(1, 0, 0, 0)]) == DeclaredCpu(apps)
    ensures DeclaredMemory(apps + [App(1, 0, 0, 0)]) == DeclaredMemory(apps)
  {
    assert (apps + [App(1, 0, 0, 0)])[..|apps|] == apps;
  }

  lemma DeleteDeclaresLess(apps: seq<App>, k: nat)
    requires k < |apps|
    ensures DeclaredCpu(Without(apps, k)) <= DeclaredCpu(apps)
    ensures DeclaredMemory(Without(apps, k)) <= DeclaredMemory(apps)
  {
    SharesAdd(apps, k);
  }

  /** Deleting an application takes out exactly its own share. */
  lemma DeleteFreesShare(o: Org, k: nat, remaining: nat)
    requires Enabled(o, Delete(k, remaining))
    ensures var t := Apply(o, Delete(k, remaining));
            && |t.apps| == |o.apps| - 1
            && DeclaredCpu(t.apps) + CpuShare(o.apps[k]) == DeclaredCpu(o.apps)
            && DeclaredMemory(t.apps) + MemoryShare(o.apps[k]) == DeclaredMemory(o.apps)
  {
    SharesAdd(o.apps, k);
  }

  lemma StepKeepsDeclared(o: Org, req: Request)
    requires DeclaredWithin(o) && Enabled(o, req)
    ensures DeclaredWithin(Apply(o, req))
  {
    match req
    case Create => CreateDeclaresNothing(o.apps);
    case Scale(k, replicas) => if Admits(o, k, replicas) { ScaleMatchesCheck(o, k, replicas); }
    case Deploy(_) =>
    case Delete(k, _) => DeleteDeclaresLess(o.apps, k);
    case Containers(_, active) => CountedSums(o.apps, active);
  }

  /**
    Declared cpu and memory stay within the ceilings over every serial run of creates, scales,
    deploys and deletes, whatever containers come and go in between.
  */
  lemma {:induction false} DeclaredStaysWithin(states: seq<Org>, reqs: seq<Request>, i: nat)
    requires IsRun(states, reqs) && DeclaredWithin(states[0]) && i < |states|
    ensures DeclaredWithin(states[i])
  {
    if i > 0 {
      DeclaredStaysWithin(states, reqs, i - 1);
      StepKeepsDeclared(states[i - 1], reqs[i - 1]);
    }
  }

  // -- can scaling down be rejected? --------------------------------------------------

  lemma FewerReplicasCostLess(c: nat, a: nat, b: nat)
    requires a <= b
    ensures c * a <= c * b
  {
    assert c * b == c * a + c * (b - a);
  }

  /**
    Scaling down, exactly: with declared totals within their ceilings, a request for no more than
    the current replicas is accepted if and only if the organization's other active containers
    leave room for it.
  */
  lemma ScaleDownAcceptedIff(o: Org, k: nat, replicas: nat)
    requires k < |o.apps| && DeclaredWithin(o) && replicas <= o.apps[k].replicas
    ensures Admits(o, k, replicas) <==> o.containers - o.apps[k].active + replicas <= o.max.containers
    ensures o.containers <= o.max.containers && replicas <= o.apps[k].active ==> Admits(o, k, replicas)
  {
    FewerReplicasCostLess(o.apps[k].cpu, replicas, o.apps[k].replicas);
    FewerReplicasCostLess(o.apps[k].memory, replicas, o.apps[k].replicas);
  }

  function Full(apps: seq<App>, containers: nat): Org { Org(Ceilings(20, 8000, 16384), apps, containers) }

  lemma FullAdmits(active: nat, containers: nat, replicas: nat, from: nat)
    ensures Admits(Full([App(from, 0, 0, active)], containers), 0, replicas) <==> containers - active + replicas <= 20
    ensures DeclaredWithin(Full([App(from, 0, 0, active)], containers))
  {
    var apps := [App(from, 0, 0, active)];
    assert apps[..0] == [];
    assert forall r: nat :: CpuShare(App(r, 0, 0, active)) == 0 && MemoryShare(App(r, 0, 0, active)) == 0;
    assert DeclaredCpu(apps) == DeclaredMemory(apps) == 0;
  }

  /**
    The handler's comment that only a net increase can be rejected does not hold: an application is
    created and scaled to five, the organization fills up with other containers before the five come
    up, and scaling down to three is rejected although nothing is over its ceiling.
  */
  lemma ScaleDownCanBeRejected() returns (states: seq<Org>, reqs: seq<Request>)
    ensures IsRun(states, reqs) && states[0] == Full([], 0)
    ensures reqs == [Create, Scale(0, 5), Containers(20, [0]), Scale(0, 3)]
    ensures var o := states[3];
            && |o.apps| == 1 && o.apps[0].replicas == 5 && DeclaredWithin(o) && o.containers <= o.max.containers
            && !Admits(o, 0, 3) && states[4] == o
  {
    reqs := [Create, Scale(0, 5), Containers(20, [0]), Scale(0, 3)];
    var o := Full([App(5, 0, 0, 0)], 20);
    states := [Full([], 0), Full([App(1, 0, 0, 0)], 0), Full([App(5, 0, 0, 0)], 0), o, o];
    FullAdmits(0, 0, 5, 1);
    FullAdmits(0, 20, 3, 5);
    assert Counted([App(5, 0, 0, 0)], [0]) == [App(5, 0, 0, 0)];
  }
}
