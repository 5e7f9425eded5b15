/**
  The registry over whole runs: its structure, how stale an answer can be, and how long an
  ejection lasts. The operations come from a table in which a container's service never changes,
  given here as the function `home` from container to service name.
*/
module RegistryRuns {
  import opened Basics
  import opened Registry

  datatype Op =
    | ReplaceAll(b: ByDns)
    | Upsert(dns: string, inst: Instance)
    | Remove(id: nat)
    | MarkUnhealthy(id: nat, duration: int)
    | MarkHealthy(id: nat)
    | Sweep(ttl: int)
    | Next(dns: string)

  /** One operation at one instant, with every outcome the map order allows. */
  ghost predicate Steps(r: Reg, op: Op, now: int, t: Reg) {
    match op
    case ReplaceAll(b) => t == ReplacedAll(r, b, now)
    case Upsert(dns, inst) => t == Upserted(r, dns, inst, now)
    case Remove(id) => Removes(r, id, t)
    case MarkUnhealthy(id, duration) => t == r.(unhealthyUntil := r.unhealthyUntil[id := now + duration])
    case MarkHealthy(id) => t == r.(unhealthyUntil := r.unhealthyUntil - {id})
    case Sweep(ttl) => Sweeps(r, ttl, now, t)
    case Next(_) => t == r
  }

  /** Operations applied one after the other under the lock, on a clock that never goes back. */
  ghost predicate IsRun(states: seq<Reg>, ops: seq<Op>, times: seq<int>) {
    && |states| == |ops| + 1 && |times| == |ops|
    && (forall i :: 0 <= i < |ops| ==> Steps(states[i], ops[i], times[i], states[i + 1]))
    && (forall i, j :: 0 <= i < j < |times| ==> times[i] <= times[j])
  }

  ghost predicate Homed(b: ByDns, home: nat -> string) {
    forall dns, id :: dns in b && HasId(b[dns], id) ==> home(id) == dns
  }

  ghost predicate DistinctLists(b: ByDns) { forall dns :: dns in b ==> DistinctIds(b[dns]) }

  ghost predicate Fed(op: Op, home: nat -> string) {
    match op
    case ReplaceAll(b) => Homed(b, home) && DistinctLists(b)
    case Upsert(dns, inst) => home(inst.id) == dns
    case _ => true
  }

  // -- structure ----------------------------------------------------------------------

  /** Ids occur once, under their own service, and exactly the registered ones are bookkept. */
  ghost predicate Structured(r: Reg, home: nat -> string) {
    Homed(r.byDns, home) && DistinctLists(r.byDns) && r.lastSeen.Keys == Ids(r.byDns)
  }

  lemma StructuredIsUnique(r: Reg, home: nat -> string)
    requires Structured(r, home)
    ensures Unique(r.byDns)
  {
    forall d, e, id | d in r.byDns && e in r.byDns && HasId(r.byDns[d], id) && HasId(r.byDns[e], id) ensures d == e {
      assert home(id) == d && home(id) == e;
    }
    forall dns | dns in r.byDns ensures DistinctIds(r.byDns[dns]) {
    }
  }

  lemma WithInstanceHasId(list: seq<Instance>, inst: Instance, id: nat)
    ensures HasId(WithInstance(list, inst), id) <==> HasId(list, id) || id == inst.id
  {
    var k := Find(list, inst.id);
    var r := WithInstance(list, inst);
    if k < |list| {
      if HasId(list, id) {
        var i :| 0 <= i < |list| && list[i].id == id;
        assert r[i].id == id;
      }
      assert r[k] == inst;
    } else {
      HasIdAppend(list, inst, id);
    }
  }

  lemma UpsertRegisters(r: Reg, dns: string, inst: Instance, now: int, id: nat)
    ensures Registered(Upserted(r, dns, inst, now).byDns, id) <==> Registered(r.byDns, id) || id == inst.id
  {
    var t := Upserted(r, dns, inst, now);
    WithInstanceHasId(ListOf(r.byDns, dns), inst, id);
    assert t.byDns[dns] == WithInstance(ListOf(r.byDns, dns), inst);
    if Registered(r.byDns, id) {
      var e :| e in r.byDns && HasId(r.byDns[e], id);
      assert e in t.byDns && HasId(t.byDns[e], id);
    }
    if id == inst.id {
      assert dns in t.byDns && HasId(t.byDns[dns], id);
    }
    if Registered(t.byDns, id) {
      var e :| e in t.byDns && HasId(t.byDns[e], id);
      assert e != dns ==> e in r.byDns && HasId(r.byDns[e], id);
    }
  }

  lemma UpsertKeepsStructure(r: Reg, dns: string, inst: Instance, now: int, home: nat -> string)
    requires Structured(r, home) && home(inst.id) == dns
    ensures Structured(Upserted(r, dns, inst, now), home)
  {
    var t := Upserted(r, dns, inst, now);
    forall e, id | e in t.byDns && HasId(t.byDns[e], id) ensures home(id) == e {
      WithInstanceHasId(ListOf(r.byDns, dns), inst, id);
    }
    forall id ensures id in t.lastSeen.Keys <==> id in Ids(t.byDns) {
      UpsertRegisters(r, dns, inst, now, id);
    }
  }

  lemma EvictKeepsStructure(r: Reg, ids: set<nat>, home: nat -> string)
    requires Structured(r, home)
    ensures Structured(Evicted(r, ids), home)
  {
    var t := Evicted(r, ids);
    StructuredIsUnique(r, home);
    EvictedUnique(r, ids);
    forall e, id | e in t.byDns && HasId(t.byDns[e], id) ensures home(id) == e {
      KeepHasId(r.byDns[e], ids, id);
    }
    forall id ensures id in t.lastSeen.Keys <==> id in Ids(t.byDns) {
      EvictedRegisters(r, ids, id);
    }
  }

  /** What a removing operation does in a structured registry: it evicts one definite set. */
  ghost function Evictees(r: Reg, op: Op, now: int): set<nat> {
    match op
    case Remove(id) => if Registered(r.byDns, id) then {id} else {}
    case Sweep(ttl) => Stale(r, ttl, now)
    case _ => {}
  }

  lemma RemovingEvicts(r: Reg, op: Op, now: int, t: Reg, home: nat -> string)
    requires Structured(r, home) && Steps(r, op, now, t) && (op.Remove? || op.Sweep?)
    ensures t == Evicted(r, Evictees(r, op, now))
  {
    StructuredIsUnique(r, home);
    if op.Sweep? {
      SweepIsEviction(r, op.ttl, now, t);
    } else if Registered(r.byDns, op.id) {
      RemovalIsEviction(r, op.id, t);
    } else {
      EvictedNothing(r);
    }
  }

  lemma StepKeepsStructure(r: Reg, op: Op, now: int, t: Reg, home: nat -> string)
    requires Structured(r, home) && Fed(op, home) && Steps(r, op, now, t)
    ensures Structured(t, home)
  {
    match op
    case Upsert(dns, inst) => UpsertKeepsStructure(r, dns, inst, now, home);
    case Remove(_) =>
      RemovingEvicts(r, op, now, t, home);
      EvictKeepsStructure(r, Evictees(r, op, now), home);
    case Sweep(_) =>
      RemovingEvicts(r, op, now, t, home);
      EvictKeepsStructure(r, Evictees(r, op, now), home);
    case _ =>
  }

  /**
    Registry structure: in every state of every run, each registered container occurs exactly once
    and the keys of lastSeen are exactly the registered containers; right after a full resync the
    unhealthy marks too cover only registered containers.
  */
  lemma {:induction false} StructureHolds(states: seq<Reg>, ops: seq<Op>, times: seq<int>, home: nat -> string, i: nat)
    requires IsRun(states, ops, times) && states[0] == EMPTY && i < |states|
    requires forall j :: 0 <= j < |ops| ==> Fed(ops[j], home)
    ensures Structured(states[i], home) && Unique(states[i].byDns)
    ensures i > 0 && ops[i - 1].ReplaceAll? ==> states[i].unhealthyUntil.Keys <= Ids(states[i].byDns)
  {
    if i == 0 {
      assert Ids(states[0].byDns) == {};
    } else {
      StructureHolds(states, ops, times, home, i - 1);
      StepKeepsStructure(states[i - 1], ops[i - 1], times[i - 1], states[i], home);
    }
    StructuredIsUnique(states[i], home);
  }

  /** The hypothesis is exact: an upsert keeps ids unique iff no other service holds the container. */
  lemma UpsertUniqueIff(r: Reg, dns: string, inst: Instance, now: int)
    requires Unique(r.byDns)
    ensures Unique(Upserted(r, dns, inst, now).byDns) <==>
            forall e :: e in r.byDns && e != dns ==> !HasId(r.byDns[e], inst.id)
  {
    var t := Upserted(r, dns, inst, now);
    WithInstanceHasId(ListOf(r.byDns, dns), inst, inst.id);
    assert t.byDns[dns] == WithInstance(ListOf(r.byDns, dns), inst);
    if forall e :: e in r.byDns && e != dns ==> !HasId(r.byDns[e], inst.id) {
      forall d, e, id | d in t.byDns && e in t.byDns && HasId(t.byDns[d], id) && HasId(t.byDns[e], id) ensures d == e {
        WithInstanceHasId(ListOf(r.byDns, dns), inst, id);
      }
    } else {
      var e :| e in r.byDns && e != dns && HasId(r.byDns[e], inst.id);
      assert e in t.byDns && HasId(t.byDns[e], inst.id) && HasId(t.byDns[dns], inst.id);
    }
  }

  /**
    What goes wrong otherwise: a container held by two services survives its own removal, without
    a lastSeen entry, so that no later sweep will ever consider it stale.
  */
  lemma MovedInstanceLingers(r: Reg, id: nat, d: string, e: string, t: Reg)
    requires d in r.byDns && e in r.byDns && d != e && HasId(r.byDns[d], id) && HasId(r.byDns[e], id)
    requires Removes(r, id, t)
    ensures Registered(t.byDns, id) && id !in t.lastSeen
    ensures forall ttl, now :: id !in Stale(t, ttl, now)
  {
    assert Registered(r.byDns, id);
    var dns :| dns in r.byDns && HasId(r.byDns[dns], id) && t == RemovedAt(r, dns, Find(r.byDns[dns], id));
    var other := if dns == d then e else d;
    assert t.byDns[other] == r.byDns[other];
    assert other in t.byDns && HasId(t.byDns[other], id);
  }

  // -- bounded staleness --------------------------------------------------------------

  /** The operation states that this very instance backs the service. */
  ghost predicate Confirms(op: Op, dns: string, inst: Instance) {
    match op
    case ReplaceAll(b) => inst in ListOf(b, dns)
    case Upsert(d, x) => d == dns && x == inst
    case _ => false
  }

  ghost predicate ConfirmedBefore(ops: seq<Op>, times: seq<int>, i: nat, dns: string, inst: Instance, at: int)
    requires |times| == |ops|
  {
    exists j :: 0 <= j < i && j < |ops| && Confirms(ops[j], dns, inst) && times[j] == at
  }

  /** Every instance in the registry was put there by an operation at the time its clock shows. */
  ghost predicate Backed(r: Reg, ops: seq<Op>, times: seq<int>, i: nat)
    requires |times| == |ops|
  {
    forall dns, x :: dns in r.byDns && x in r.byDns[dns] ==>
                       x.id in r.lastSeen && ConfirmedBefore(ops, times, i, dns, x, r.lastSeen[x.id])
  }

  lemma WithInstanceMember(list: seq<Instance>, inst: Instance, x: Instance)
    requires DistinctIds(list) && x in WithInstance(list, inst)
    ensures x == inst || (x in list && x.id != inst.id)
  {
    var k := Find(list, inst.id);
    var i :| 0 <= i < |WithInstance(list, inst)| && WithInstance(list, inst)[i] == x;
  }

  lemma MemberHasId(b: ByDns, dns: string, x: Instance)
    requires dns in b && x in b[dns]
    ensures HasId(b[dns], x.id) && Registered(b, x.id)
  {
    var i :| 0 <= i < |b[dns]| && b[dns][i] == x;
  }

  lemma ConfirmedLonger(ops: seq<Op>, times: seq<int>, i: nat, dns: string, x: Instance, at: int)
    requires |times| == |ops| && ConfirmedBefore(ops, times, i, dns, x, at)
    ensures ConfirmedBefore(ops, times, i + 1, dns, x, at)
  {
    var j :| 0 <= j < i && j < |ops| && Confirms(ops[j], dns, x) && times[j] == at;
  }

  lemma UpsertKeepsBacked(r: Reg, ops: seq<Op>, times: seq<int>, i: nat, home: nat -> string)
    requires |times| == |ops| && i < |ops| && ops[i].Upsert?
    requires Structured(r, home) && Fed(ops[i], home) && Backed(r, ops, times, i)
    ensures Backed(Upserted(r, ops[i].dns, ops[i].inst, times[i]), ops, times, i + 1)
  {
    var dns0, inst := ops[i].dns, ops[i].inst;
    var t := Upserted(r, dns0, inst, times[i]);
    forall dns, x | dns in t.byDns && x in t.byDns[dns]
      ensures x.id in t.lastSeen && ConfirmedBefore(ops, times, i + 1, dns, x, t.lastSeen[x.id])
    {
      if dns == dns0 {
        WithInstanceMember(ListOf(r.byDns, dns), inst, x);
      } else {
        MemberHasId(r.byDns, dns, x);
      }
      if dns == dns0 && x == inst {
        assert Confirms(ops[i], dns, x);
      } else {
        assert x.id != inst.id && x in r.byDns[dns];
        ConfirmedLonger(ops, times, i, dns, x, r.lastSeen[x.id]);
      }
    }
  }

  lemma EvictKeepsBacked(r: Reg, ids: set<nat>, ops: seq<Op>, times: seq<int>, i: nat)
    requires |times| == |ops| && Backed(r, ops, times, i)
    ensures Backed(Evicted(r, ids), ops, times, i)
  {
    var t := Evicted(r, ids);
    forall dns, x | dns in t.byDns && x in t.byDns[dns]
      ensures x.id in t.lastSeen && ConfirmedBefore(ops, times, i, dns, x, t.lastSeen[x.id])
    {
      KeepMembers(r.byDns[dns], ids, x);
    }
  }

  lemma ReplaceKeepsBacked(r: Reg, ops: seq<Op>, times: seq<int>, i: nat)
    requires |times| == |ops| && i < |ops| && ops[i].ReplaceAll?
    ensures Backed(ReplacedAll(r, ops[i].b, times[i]), ops, times, i + 1)
  {
    var t := ReplacedAll(r, ops[i].b, times[i]);
    forall dns, x | dns in t.byDns && x in t.byDns[dns]
      ensures x.id in t.lastSeen && ConfirmedBefore(ops, times, i + 1, dns, x, t.lastSeen[x.id])
    {
      MemberHasId(t.byDns, dns, x);
      assert Confirms(ops[i], dns, x);
    }
  }

  lemma BackedLonger(r: Reg, ops: seq<Op>, times: seq<int>, i: nat)
    requires |times| == |ops| && Backed(r, ops, times, i)
    ensures Backed(r, ops, times, i + 1)
  {
    forall dns, x | dns in r.byDns && x in r.byDns[dns]
      ensures ConfirmedBefore(ops, times, i + 1, dns, x, r.lastSeen[x.id])
    {
      ConfirmedLonger(ops, times, i, dns, x, r.lastSeen[x.id]);
    }
  }

  lemma {:induction false} RunBacked(states: seq<Reg>, ops: seq<Op>, times: seq<int>, home: nat -> string, i: nat)
    requires IsRun(states, ops, times) && states[0] == EMPTY && i < |states|
    requires forall j :: 0 <= j < |ops| ==> Fed(ops[j], home)
    ensures Backed(states[i], ops, times, i)
  {
    if i > 0 {
      var r, op := states[i - 1], ops[i - 1];
      RunBacked(states, ops, times, home, i - 1);
      StructureHolds(states, ops, times, home, i - 1);
      if op.Upsert? {
        UpsertKeepsBacked(r, ops, times, i - 1, home);
      } else if op.ReplaceAll? {
        ReplaceKeepsBacked(r, ops, times, i - 1);
      } else {
        if op.Remove? || op.Sweep? {
          RemovingEvicts(r, op, times[i - 1], states[i], home);
          EvictKeepsBacked(r, Evictees(r, op, times[i - 1]), ops, times, i - 1);
        }
        BackedLonger(states[i], ops, times, i - 1);
      }
    }
  }

  ghost predicate FreshSince(r: Reg, bound: int) {
    forall id :: id in r.lastSeen ==> r.lastSeen[id] >= bound
  }

  lemma StepKeepsFresh(r: Reg, op: Op, now: int, t: Reg, home: nat -> string, bound: int)
    requires Structured(r, home) && Steps(r, op, now, t) && FreshSince(r, bound) && now >= bound
    ensures FreshSince(t, bound)
  {
    if op.Remove? || op.Sweep? {
      RemovingEvicts(r, op, now, t, home);
    }
  }

  lemma SweepMakesFresh(r: Reg, ttl: int, now: int, t: Reg, home: nat -> string)
    requires Structured(r, home) && Steps(r, Sweep(ttl), now, t)
    ensures FreshSince(t, now - ttl)
  {
    RemovingEvicts(r, Sweep(ttl), now, t, home);
  }

  lemma {:induction false} FreshAfterSweep(
    states: seq<Reg>, ops: seq<Op>, times: seq<int>, home: nat -> string, swept: nat, ttl: int, i: nat)
    requires IsRun(states, ops, times) && states[0] == EMPTY && swept < i < |states|
    requires forall j :: 0 <= j < |ops| ==> Fed(ops[j], home)
    requires ops[swept] == Sweep(ttl) && ttl >= 0
    ensures FreshSince(states[i], times[swept] - ttl)
  {
    StructureHolds(states, ops, times, home, i - 1);
    if i == swept + 1 {
      SweepMakesFresh(states[swept], ttl, times[swept], states[i], home);
    } else {
      FreshAfterSweep(states, ops, times, home, swept, ttl, i - 1);
      assert times[swept] <= times[i - 1];
      StepKeepsFresh(states[i - 1], ops[i - 1], times[i - 1], states[i], home, times[swept] - ttl);
    }
  }

  /** At operation k, a sweep ran within the last third of the ttl, or the run is younger than that. */
  ghost predicate OnSchedule(ops: seq<Op>, times: seq<int>, ttl: int, k: nat)
    requires |times| == |ops| && k < |ops|
  {
    times[k] - times[0] <= ttl / 3 || exists j :: 0 <= j < k && ops[j] == Sweep(ttl) && times[k] - times[j] <= ttl / 3
  }

  /**
    Bounded staleness: with sweeps on schedule, any instance Next can return at time t was confirmed,
    with this very address and under this very service, no earlier than t - ttl - ttl/3.
  */
  lemma BoundedStaleness(states: seq<Reg>, ops: seq<Op>, times: seq<int>, home: nat -> string, ttl: int, k: nat, x: Instance)
    requires IsRun(states, ops, times) && states[0] == EMPTY && k < |ops| && ttl >= 0
    requires forall j :: 0 <= j < |ops| ==> Fed(ops[j], home)
    requires ops[k].Next? && x in Available(states[k], ListOf(states[k].byDns, ops[k].dns), times[k])
    requires OnSchedule(ops, times, ttl, k)
    ensures exists j :: 0 <= j < k && Confirms(ops[j], ops[k].dns, x) && times[j] >= times[k] - ttl - ttl / 3
  {
    var r, dns := states[k], ops[k].dns;
    AvailableMember(r, ListOf(r.byDns, dns), times[k], x);
    RunBacked(states, ops, times, home, k);
    assert ConfirmedBefore(ops, times, k, dns, x, r.lastSeen[x.id]);
    var j :| 0 <= j < k && j < |ops| && Confirms(ops[j], dns, x) && times[j] == r.lastSeen[x.id];
    if times[k] - times[0] <= ttl / 3 {
      assert times[0] <= times[j];
    } else {
      var s :| 0 <= s < k && ops[s] == Sweep(ttl) && times[k] - times[s] <= ttl / 3;
      FreshAfterSweep(states, ops, times, home, s, ttl, k);
    }
  }

  // -- ejection -----------------------------------------------------------------------

  lemma {:induction false} AvailableMember(r: Reg, list: seq<Instance>, now: int, x: Instance)
    ensures x in Available(r, list, now) <==> x in list && !Ejected(r, x.id, now)
  {
    if list != [] {
      var front, last := list[..|list| - 1], list[|list| - 1];
      AvailableMember(r, front, now, x);
      assert list == front + [last];
    }
  }

  ghost predicate Marked(r: Reg, c: nat, until: int) { c in r.unhealthyUntil && r.unhealthyUntil[c] == until }

  /** The operation forgets c and its mark: a resync that does not list c, or a removal or sweep of it. */
  ghost predicate Drops(r: Reg, op: Op, now: int, c: nat) {
    match op
    case ReplaceAll(b) => !Registered(b, c)
    case Remove(id) => id == c && Registered(r.byDns, c)
    case Sweep(ttl) => c in Stale(r, ttl, now)
    case _ => false
  }

  /** The operation sets or clears the mark of c itself. */
  predicate Remarks(op: Op, c: nat) { (op.MarkHealthy? || op.MarkUnhealthy?) && op.id == c }

  /** A mark survives every operation that neither drops nor re-marks c; what drops c unregisters it. */
  lemma StepKeepsMark(r: Reg, op: Op, now: int, t: Reg, home: nat -> string, c: nat, until: int)
    requires Structured(r, home) && Fed(op, home) && Steps(r, op, now, t) && !Remarks(op, c)
    ensures Marked(r, c, until) && !Drops(r, op, now, c) ==> Marked(t, c, until)
    ensures Drops(r, op, now, c) ==> !Registered(t.byDns, c)
  {
    if op.Remove? || op.Sweep? {
      RemovingEvicts(r, op, now, t, home);
      EvictedRegisters(r, Evictees(r, op, now), c);
    }
  }

  lemma MarkedUnavailable(r: Reg, c: nat, until: int, dns: string, x: Instance, now: int)
    requires Marked(r, c, until) || !Registered(r.byDns, c)
    requires now < until && x in Available(r, ListOf(r.byDns, dns), now)
    ensures x.id != c
  {
    AvailableMember(r, ListOf(r.byDns, dns), now, x);
    MemberHasId(r.byDns, dns, x);
  }

  /** c has been marked until the given time, and since then neither re-marked nor dropped. */
  ghost predicate MarkStands(states: seq<Reg>, ops: seq<Op>, times: seq<int>, k: nat, c: nat, until: int)
    requires |states| == |ops| + 1 && |times| == |ops| && k < |states|
  {
    k > 0 &&
    if Remarks(ops[k - 1], c) then ops[k - 1].MarkUnhealthy? && times[k - 1] + ops[k - 1].duration == until
    else !Drops(states[k - 1], ops[k - 1], times[k - 1], c) && MarkStands(states, ops, times, k - 1, c, until)
  }

  lemma StepMarkedIff(r: Reg, op: Op, now: int, t: Reg, home: nat -> string, c: nat, until: int)
    requires Structured(r, home) && Fed(op, home) && Steps(r, op, now, t)
    ensures Marked(t, c, until) <==>
            if Remarks(op, c) then op.MarkUnhealthy? && now + op.duration == until
            else !Drops(r, op, now, c) && Marked(r, c, until)
  {
    if op.Remove? || op.Sweep? {
      RemovingEvicts(r, op, now, t, home);
    }
  }

  /** The marks, exactly: a container carries a mark iff it was set by a call that still stands. */
  lemma {:induction false} MarkedIff(
    states: seq<Reg>, ops: seq<Op>, times: seq<int>, home: nat -> string, k: nat, c: nat, until: int)
    requires IsRun(states, ops, times) && states[0] == EMPTY && k < |states|
    requires forall j :: 0 <= j < |ops| ==> Fed(ops[j], home)
    ensures Marked(states[k], c, until) <==> MarkStands(states, ops, times, k, c, until)
  {
    if k > 0 {
      MarkedIff(states, ops, times, home, k - 1, c, until);
      StructureHolds(states, ops, times, home, k - 1);
      StepMarkedIff(states[k - 1], ops[k - 1], times[k - 1], states[k], home, c, until);
    }
  }

  /**
    Who can be chosen, exactly: in every state of every run, an instance registered under a name is available
    at a given time if and only if no call that marked it unhealthy for longer still stands.
  */
  lemma AvailableIff(
    states: seq<Reg>, ops: seq<Op>, times: seq<int>, home: nat -> string, k: nat, dns: string, x: Instance, now: int)
    requires IsRun(states, ops, times) && states[0] == EMPTY && k < |states|
    requires forall j :: 0 <= j < |ops| ==> Fed(ops[j], home)
    requires x in ListOf(states[k].byDns, dns)
    ensures x in Available(states[k], ListOf(states[k].byDns, dns), now) <==>
            forall until :: MarkStands(states, ops, times, k, x.id, until) ==> until <= now
  {
    AvailableMember(states[k], ListOf(states[k].byDns, dns), now, x);
    if Ejected(states[k], x.id, now) {
      MarkedIff(states, ops, times, home, k, x.id, states[k].unhealthyUntil[x.id]);
    } else {
      forall until | MarkStands(states, ops, times, k, x.id, until) ensures until <= now {
        MarkedIff(states, ops, times, home, k, x.id, until);
      }
    }
  }

  lemma {:induction false} StandsUntil(
    states: seq<Reg>, ops: seq<Op>, times: seq<int>, m: nat, k: nat, c: nat, until: int)
    requires |states| == |ops| + 1 && |times| == |ops| && m < k < |states|
    requires ops[m].MarkUnhealthy? && ops[m].id == c && forall j :: m < j < k ==> !Remarks(ops[j], c)
    requires MarkStands(states, ops, times, k, c, until)
    ensures until == times[m] + ops[m].duration
  {
    if k > m + 1 {
      StandsUntil(states, ops, times, m, k - 1, c, until);
    }
  }

  lemma {:induction false} NeverStands(states: seq<Reg>, ops: seq<Op>, times: seq<int>, k: nat, c: nat, until: int)
    requires |states| == |ops| + 1 && |times| == |ops| && k < |states|
    requires forall j :: 0 <= j < k ==> !(ops[j].MarkUnhealthy? && ops[j].id == c)
    ensures !MarkStands(states, ops, times, k, c, until)
  {
    if k > 0 {
      NeverStands(states, ops, times, k - 1, c, until);
    }
  }

  /** An ejection ends: from the time the last mark names, the container is available wherever it is registered. */
  lemma EjectionEnds(
    states: seq<Reg>, ops: seq<Op>, times: seq<int>, home: nat -> string, m: nat, k: nat, dns: string, x: Instance, now: int)
    requires IsRun(states, ops, times) && states[0] == EMPTY && m < k < |states|
    requires forall j :: 0 <= j < |ops| ==> Fed(ops[j], home)
    requires ops[m].MarkUnhealthy? && ops[m].id == x.id && forall j :: m < j < k ==> !Remarks(ops[j], x.id)
    requires x in ListOf(states[k].byDns, dns) && now >= times[m] + ops[m].duration
    ensures x in Available(states[k], ListOf(states[k].byDns, dns), now)
  {
    AvailableIff(states, ops, times, home, k, dns, x, now);
    forall until | MarkStands(states, ops, times, k, x.id, until) ensures until <= now {
      StandsUntil(states, ops, times, m, k, x.id, until);
    }
  }

  /** A container that was never marked is available wherever and whenever it is registered. */
  lemma UnmarkedAvailable(
    states: seq<Reg>, ops: seq<Op>, times: seq<int>, home: nat -> string, k: nat, dns: string, x: Instance, now: int)
    requires IsRun(states, ops, times) && states[0] == EMPTY && k < |states|
    requires forall j :: 0 <= j < |ops| ==> Fed(ops[j], home)
    requires forall j :: 0 <= j < k ==> !(ops[j].MarkUnhealthy? && ops[j].id == x.id)
    requires x in ListOf(states[k].byDns, dns)
    ensures x in Available(states[k], ListOf(states[k].byDns, dns), now)
  {
    AvailableIff(states, ops, times, home, k, dns, x, now);
    forall until: int ensures !MarkStands(states, ops, times, k, x.id, until) {
      NeverStands(states, ops, times, k, x.id, until);
    }
  }

  /** Some operation after m and before k drops c. */
  ghost predicate DroppedSince(states: seq<Reg>, ops: seq<Op>, times: seq<int>, m: nat, k: nat, c: nat)
    requires |states| == |ops| + 1 && |times| == |ops| && k < |states|
  {
    exists j :: m < j < k && Drops(states[j], ops[j], times[j], c)
  }

  /**
    Ejection holds: once a container is marked unhealthy, registered or not, Next cannot return it before
    the mark expires, whatever resyncs, upserts, sweeps and other marks intervene, unless it is itself
    marked again or healthy, or dropped and then registered again.
  */
  lemma {:induction false} EjectionHolds(
    states: seq<Reg>, ops: seq<Op>, times: seq<int>, home: nat -> string, m: nat, k: nat)
    requires IsRun(states, ops, times) && states[0] == EMPTY && m < k < |states|
    requires forall j :: 0 <= j < |ops| ==> Fed(ops[j], home)
    requires ops[m].MarkUnhealthy?
    requires forall j :: m < j < k ==> !Remarks(ops[j], ops[m].id)
    requires forall j :: m < j < k && Registered(states[j + 1].byDns, ops[m].id) && !Registered(states[j].byDns, ops[m].id) ==>
               !DroppedSince(states, ops, times, m, j, ops[m].id)
    ensures Marked(states[k], ops[m].id, times[m] + ops[m].duration) ||
            (!Registered(states[k].byDns, ops[m].id) && DroppedSince(states, ops, times, m, k, ops[m].id))
    ensures forall dns, x, now :: now < times[m] + ops[m].duration && x in Available(states[k], ListOf(states[k].byDns, dns), now) ==>
                                    x.id != ops[m].id
  {
    var c, until := ops[m].id, times[m] + ops[m].duration;
    if k > m + 1 {
      EjectionHolds(states, ops, times, home, m, k - 1);
      StructureHolds(states, ops, times, home, k - 1);
      StepKeepsMark(states[k - 1], ops[k - 1], times[k - 1], states[k], home, c, until);
    }
    forall dns, x, now | now < until && x in Available(states[k], ListOf(states[k].byDns, dns), now) ensures x.id != c {
      MarkedUnavailable(states[k], c, until, dns, x, now);
    }
  }
}
