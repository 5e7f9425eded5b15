/**
  The load balancer's in-memory registry. `Reg` is its content as a value, with each operation as
  a function or, where the outcome depends on the order a map is ranged over, as a relation;
  `LoadBalancer.ServiceRegistry` performs them in place, as loops over its maps and lists.
*/
module Registry {
  import opened Basics
  import opened RoundRobin

  datatype Instance = Instance(id: nat, ip: string, port: int)

  type ByDns = map<string, seq<Instance>>

  datatype Reg = Reg(byDns: ByDns, lastSeen: map<nat, int>, unhealthyUntil: map<nat, int>)

  const EMPTY := Reg(map[], map[], map[])

  function ListOf(b: ByDns, dns: string): seq<Instance> { if dns in b then b[dns] else [] }

  predicate HasId(list: seq<Instance>, id: nat) { exists i :: 0 <= i < |list| && list[i].id == id }

  /** The container is registered under some service. */
  ghost predicate Registered(b: ByDns, id: nat) { exists dns :: dns in b && HasId(b[dns], id) }

  /** Every registered container id. */
  ghost function Ids(b: ByDns): (r: set<nat>)
    ensures forall id :: id in r <==> Registered(b, id)
  {
    set dns, i | dns in b && 0 <= i < |b[dns]| :: b[dns][i].id
  }

  // -- operations ---------------------------------------------------------------------

  ghost function ReplacedAll(r: Reg, b: ByDns, now: int): Reg {
    Reg(b, map id | id in Ids(b) :: now, map id | id in r.unhealthyUntil && id in Ids(b) :: r.unhealthyUntil[id])
  }

  /** The position of the first instance with this id, or the length of the list. */
  function Find(list: seq<Instance>, id: nat): (k: nat)
    ensures k <= |list|
    ensures k < |list| ==> list[k].id == id
    ensures forall i :: 0 <= i < k ==> list[i].id != id
  {
    if list == [] then 0 else if list[0].id == id then 0 else 1 + Find(list[1..], id)
  }

  function WithInstance(list: seq<Instance>, inst: Instance): seq<Instance> {
    var k := Find(list, inst.id);
    if k < |list| then list[k := inst] else list + [inst]
  }

  function Upserted(r: Reg, dns: string, inst: Instance, now: int): Reg {
    r.(byDns := r.byDns[dns := WithInstance(ListOf(r.byDns, dns), inst)], lastSeen := r.lastSeen[inst.id := now])
  }

  /** Drop position k of one service's list and the container's bookkeeping. */
  function RemovedAt(r: Reg, dns: string, k: nat): Reg
    requires dns in r.byDns && k < |r.byDns[dns]|
  {
    var id := r.byDns[dns][k].id;
    Reg(r.byDns[dns := Without(r.byDns[dns], k)], r.lastSeen - {id}, r.unhealthyUntil - {id})
  }

  /** removeLocked ranges over a map, so it may meet any service that holds the container first. */
  ghost predicate Removes(r: Reg, id: nat, t: Reg) {
    if Registered(r.byDns, id) then
      exists dns :: dns in r.byDns && HasId(r.byDns[dns], id) && t == RemovedAt(r, dns, Find(r.byDns[dns], id))
    else t == r
  }

  /** Removing several containers one after the other, through the given states. */
  ghost predicate RemovesEach(chain: seq<Reg>, ids: seq<nat>) {
    |chain| == |ids| + 1 && forall i :: 0 <= i < |ids| ==> Removes(chain[i], ids[i], chain[i + 1])
  }

  function Stale(r: Reg, ttl: int, now: int): set<nat> {
    set id | id in r.lastSeen && r.lastSeen[id] < now - ttl
  }

  ghost predicate SweepsVia(r: Reg, ttl: int, now: int, order: seq<nat>, chain: seq<Reg>) {
    Distinct(order) && Members(order) == Stale(r, ttl, now) && RemovesEach(chain, order) && chain[0] == r
  }

  /** Sweep collects the stale ids in some order and removes them one by one. */
  ghost predicate Sweeps(r: Reg, ttl: int, now: int, t: Reg) {
    exists order: seq<nat>, chain: seq<Reg> :: SweepsVia(r, ttl, now, order, chain) && chain[|order|] == t
  }

  predicate Ejected(r: Reg, id: nat, now: int) { id in r.unhealthyUntil && r.unhealthyUntil[id] > now }

  /** The instances Next may choose from, in list order. */
  function Available(r: Reg, list: seq<Instance>, now: int): seq<Instance> {
    if list == [] then []
    else
      var last := list[|list| - 1];
      var found := Available(r, list[..|list| - 1], now);
      if Ejected(r, last.id, now) then found else found + [last]
  }

  function Choices(r: Reg, dns: string, now: int): seq<Instance> { Available(r, ListOf(r.byDns, dns), now) }

  /** What Next returns, given the strategy's counters, and what it leaves them at. */
  function Answered(r: Reg, c: Counters, dns: string, now: int): Option<Instance> {
    var a := Choices(r, dns, now);
    if a == [] then None else Some(a[Index(c, dns, |a|)])
  }

  function Turned(r: Reg, c: Counters, dns: string, now: int): Counters {
    var a := Choices(r, dns, now);
    if a == [] then c else Advanced(c, dns, |a|)
  }

  // -- structure ----------------------------------------------------------------------

  ghost predicate DistinctIds(list: seq<Instance>) {
    forall i, j :: 0 <= i < j < |list| ==> list[i].id != list[j].id
  }

  /** Each container id occurs at most once across all services. */
  ghost predicate Unique(b: ByDns) {
    && (forall dns :: dns in b ==> DistinctIds(b[dns]))
    && (forall d, e, id :: d in b && e in b && HasId(b[d], id) && HasId(b[e], id) ==> d == e)
  }

  /** Evicting a set of containers: every list keeps the others in order, the bookkeeping goes too. */
  function Keep(list: seq<Instance>, ids: set<nat>): seq<Instance> {
    if list == [] then []
    else
      var last := list[|list| - 1];
      var kept := Keep(list[..|list| - 1], ids);
      if last.id in ids then kept else kept + [last]
  }

  function Evicted(r: Reg, ids: set<nat>): Reg {
    Reg(map dns | dns in r.byDns :: Keep(r.byDns[dns], ids), r.lastSeen - ids, r.unhealthyUntil - ids)
  }

  lemma HasIdAppend(list: seq<Instance>, x: Instance, id: nat)
    ensures HasId(list + [x], id) <==> HasId(list, id) || x.id == id
  {
    if HasId(list, id) {
      var i :| 0 <= i < |list| && list[i].id == id;
      assert (list + [x])[i].id == id;
    }
    assert (list + [x])[|list|] == x;
  }

  lemma {:induction false} KeepHasId(list: seq<Instance>, ids: set<nat>, id: nat)
    ensures HasId(Keep(list, ids), id) <==> HasId(list, id) && id !in ids
  {
    if list != [] {
      var front, last := list[..|list| - 1], list[|list| - 1];
      KeepHasId(front, ids, id);
      assert list == front + [last];
      HasIdAppend(front, last, id);
      HasIdAppend(Keep(front, ids), last, id);
    }
  }

  lemma {:induction false} KeepMembers(list: seq<Instance>, ids: set<nat>, x: Instance)
    ensures x in Keep(list, ids) <==> x in list && x.id !in ids
  {
    if list != [] {
      var front, last := list[..|list| - 1], list[|list| - 1];
      KeepMembers(front, ids, x);
      assert list == front + [last];
    }
  }

  lemma {:induction false} KeepDistinct(list: seq<Instance>, ids: set<nat>)
    requires DistinctIds(list)
    ensures DistinctIds(Keep(list, ids))
  {
    if list != [] {
      var front, last := list[..|list| - 1], list[|list| - 1];
      KeepDistinct(front, ids);
      assert !HasId(front, last.id);
      KeepHasId(front, ids, last.id);
    }
  }

  lemma {:induction false} KeepNothing(list: seq<Instance>, ids: set<nat>)
    requires forall i :: 0 <= i < |list| ==> list[i].id !in ids
    ensures Keep(list, ids) == list
  {
    if list != [] {
      KeepNothing(list[..|list| - 1], ids);
    }
  }

  lemma {:induction false} KeepTwice(list: seq<Instance>, a: set<nat>, b: set<nat>)
    ensures Keep(Keep(list, a), b) == Keep(list, a + b)
  {
    if list != [] {
      var front, last := list[..|list| - 1], list[|list| - 1];
      KeepTwice(front, a, b);
      if last.id !in a {
        assert (Keep(front, a) + [last])[..|Keep(front, a)|] == Keep(front, a);
      }
    }
  }

  /** In a list without repeats, cutting out position k keeps exactly the other ids. */
  lemma {:induction false} CutIsKeep(list: seq<Instance>, k: nat)
    requires DistinctIds(list) && k < |list|
    ensures Without(list, k) == Keep(list, {list[k].id})
  {
    var front, last := list[..|list| - 1], list[|list| - 1];
    if k == |list| - 1 {
      KeepNothing(front, {last.id});
      assert Without(list, k) == front;
    } else {
      assert front[k] == list[k];
      CutIsKeep(front, k);
      assert Without(list, k) == Without(front, k) + [last];
    }
  }

  lemma EvictedRegisters(r: Reg, ids: set<nat>, id: nat)
    ensures Registered(Evicted(r, ids).byDns, id) <==> Registered(r.byDns, id) && id !in ids
  {
    var t := Evicted(r, ids);
    forall dns | dns in r.byDns ensures HasId(t.byDns[dns], id) <==> HasId(r.byDns[dns], id) && id !in ids {
      KeepHasId(r.byDns[dns], ids, id);
    }
  }

  lemma EvictedUnique(r: Reg, ids: set<nat>)
    requires Unique(r.byDns)
    ensures Unique(Evicted(r, ids).byDns)
  {
    var t := Evicted(r, ids);
    forall dns | dns in t.byDns ensures DistinctIds(t.byDns[dns]) {
      KeepDistinct(r.byDns[dns], ids);
    }
    forall d, e, id | d in t.byDns && e in t.byDns && HasId(t.byDns[d], id) && HasId(t.byDns[e], id) ensures d == e {
      KeepHasId(r.byDns[d], ids, id);
      KeepHasId(r.byDns[e], ids, id);
    }
  }

  lemma EvictedTwice(r: Reg, a: set<nat>, b: set<nat>)
    ensures Evicted(Evicted(r, a), b) == Evicted(r, a + b)
  {
    forall dns | dns in r.byDns ensures Keep(Keep(r.byDns[dns], a), b) == Keep(r.byDns[dns], a + b) {
      KeepTwice(r.byDns[dns], a, b);
    }
    assert r.lastSeen - a - b == r.lastSeen - (a + b);
    assert r.unhealthyUntil - a - b == r.unhealthyUntil - (a + b);
  }

  lemma EvictedNothing(r: Reg)
    ensures Evicted(r, {}) == r
  {
    forall dns | dns in r.byDns ensures Keep(r.byDns[dns], {}) == r.byDns[dns] {
      KeepNothing(r.byDns[dns], {});
    }
    assert r.lastSeen - {} == r.lastSeen && r.unhealthyUntil - {} == r.unhealthyUntil;
  }

  /**
    When ids are unique, removal is deterministic: whichever service the map yields first, the
    result is the eviction of that one container.
  */
  lemma RemovalIsEviction(r: Reg, id: nat, t: Reg)
    requires Unique(r.byDns) && Removes(r, id, t) && Registered(r.byDns, id)
    ensures t == Evicted(r, {id})
  {
    var dns :| dns in r.byDns && HasId(r.byDns[dns], id) && t == RemovedAt(r, dns, Find(r.byDns[dns], id));
    var k := Find(r.byDns[dns], id);
    CutIsKeep(r.byDns[dns], k);
    forall e | e in r.byDns && e != dns ensures Keep(r.byDns[e], {id}) == r.byDns[e] {
      assert !HasId(r.byDns[e], id);
      KeepNothing(r.byDns[e], {id});
    }
    assert t.byDns == Evicted(r, {id}).byDns;
  }

  lemma RemoveOneMore(r: Reg, gone: set<nat>, id: nat, t: Reg)
    requires Unique(r.byDns) && Registered(r.byDns, id) && id !in gone && Removes(Evicted(r, gone), id, t)
    ensures t == Evicted(r, gone + {id})
  {
    EvictedUnique(r, gone);
    EvictedRegisters(r, gone, id);
    RemovalIsEviction(Evicted(r, gone), id, t);
    EvictedTwice(r, gone, {id});
  }

  lemma {:induction false} RemovalsAreEviction(chain: seq<Reg>, ids: seq<nat>, n: nat)
    requires RemovesEach(chain, ids) && Unique(chain[0].byDns) && Distinct(ids) && n <= |ids|
    requires forall i :: 0 <= i < |ids| ==> Registered(chain[0].byDns, ids[i])
    ensures chain[n] == Evicted(chain[0], Members(ids[..n]))
  {
    if n == 0 {
      EvictedNothing(chain[0]);
      assert Members(ids[..0]) == {};
    } else {
      var gone, last := Members(ids[..n - 1]), ids[n - 1];
      RemovalsAreEviction(chain, ids, n - 1);
      assert last !in ids[..n - 1];
      RemoveOneMore(chain[0], gone, last, chain[n]);
      assert ids[..n] == ids[..n - 1] + [last];
      assert Members(ids[..n]) == gone + {last};
    }
  }

  /** Sweep removes exactly the stale instances and keeps every list otherwise in order. */
  lemma SweepIsEviction(r: Reg, ttl: int, now: int, t: Reg)
    requires Unique(r.byDns) && r.lastSeen.Keys == Ids(r.byDns) && Sweeps(r, ttl, now, t)
    ensures t == Evicted(r, Stale(r, ttl, now))
  {
    var order: seq<nat>, chain: seq<Reg> :| SweepsVia(r, ttl, now, order, chain) && chain[|order|] == t;
    forall i | 0 <= i < |order| ensures Registered(r.byDns, order[i]) {
      assert order[i] in Members(order);
      assert order[i] in r.lastSeen.Keys;
    }
    RemovalsAreEviction(chain, order, |order|);
    assert order[..|order|] == order;
  }

  // -- what stays, and where ----------------------------------------------------------

  /** Instances that are not evicted keep their order. */
  lemma {:induction false} KeepOrder(list: seq<Instance>, ids: set<nat>, i: nat, j: nat) returns (i': nat, j': nat)
    requires i <= j < |list| && list[i].id !in ids && list[j].id !in ids
    ensures i' <= j' < |Keep(list, ids)| && (i < j ==> i' < j')
    ensures Keep(list, ids)[i'] == list[i] && Keep(list, ids)[j'] == list[j]
  {
    var front, last := list[..|list| - 1], list[|list| - 1];
    if j < |front| {
      i', j' := KeepOrder(front, ids, i, j);
    } else if i == j {
      i', j' := |Keep(front, ids)|, |Keep(front, ids)|;
    } else {
      var a, b := KeepOrder(front, ids, i, i);
      i', j' := a, |Keep(front, ids)|;
    }
  }

  /** A sweep by the clock: of every service, exactly the instances last seen no longer than the ttl ago stay. */
  lemma SweepKeepsFresh(r: Reg, ttl: int, now: int, t: Reg, dns: string, x: Instance)
    requires Unique(r.byDns) && r.lastSeen.Keys == Ids(r.byDns) && Sweeps(r, ttl, now, t) && dns in r.byDns
    ensures dns in t.byDns
    ensures x in t.byDns[dns] <==> x in r.byDns[dns] && x.id in r.lastSeen && r.lastSeen[x.id] >= now - ttl
  {
    SweepIsEviction(r, ttl, now, t);
    KeepMembers(r.byDns[dns], Stale(r, ttl, now), x);
    if x in r.byDns[dns] {
      assert HasId(r.byDns[dns], x.id) && x.id in Ids(r.byDns);
    }
  }

  /** ... and they stay in the order they had. */
  lemma SweepKeepsOrder(r: Reg, ttl: int, now: int, t: Reg, dns: string, i: nat, j: nat) returns (i': nat, j': nat)
    requires Unique(r.byDns) && r.lastSeen.Keys == Ids(r.byDns) && Sweeps(r, ttl, now, t)
    requires dns in r.byDns && i < j < |r.byDns[dns]|
    requires forall k :: k == i || k == j ==> r.byDns[dns][k].id in r.lastSeen && r.lastSeen[r.byDns[dns][k].id] >= now - ttl
    ensures dns in t.byDns && i' < j' < |t.byDns[dns]|
    ensures t.byDns[dns][i'] == r.byDns[dns][i] && t.byDns[dns][j'] == r.byDns[dns][j]
  {
    SweepIsEviction(r, ttl, now, t);
    i', j' := KeepOrder(r.byDns[dns], Stale(r, ttl, now), i, j);
  }

  /** The instances to choose from are those of the list, in its order, whose mark is absent or expired. */
  lemma {:induction false} AvailableConcat(r: Reg, a: seq<Instance>, b: seq<Instance>, now: int)
    ensures Available(r, a + b, now) == Available(r, a, now) + Available(r, b, now)
    ensures |b| == 1 ==>
              Available(r, b, now) == if b[0].id in r.unhealthyUntil && now < r.unhealthyUntil[b[0].id] then [] else b
  {
    if b == [] {
      assert a + b == a;
    } else {
      assert (a + b)[..|a + b| - 1] == a + b[..|b| - 1];
      AvailableConcat(r, a, b[..|b| - 1], now);
      assert |b| == 1 ==> b[..0] == [];
    }
  }

  /** An upsert puts the container's address where the container already was, or else at the end, and moves nothing. */
  lemma UpsertInPlace(r: Reg, dns: string, inst: Instance, now: int)
    requires DistinctIds(ListOf(r.byDns, dns))
    ensures var t, list := Upserted(r, dns, inst, now), ListOf(r.byDns, dns);
            && dns in t.byDns && t.byDns - {dns} == r.byDns - {dns}
            && (forall k :: 0 <= k < |list| ==>
                  k < |t.byDns[dns]| && t.byDns[dns][k] == if list[k].id == inst.id then inst else list[k])
            && (if HasId(list, inst.id) then |t.byDns[dns]| == |list|
                else t.byDns[dns] == list + [inst])
            && t.lastSeen == r.lastSeen[inst.id := now] && t.unhealthyUntil == r.unhealthyUntil
  {
  }
}
