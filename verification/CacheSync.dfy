/**
  The incremental cache agrees with a full recompute. The load balancer keeps its registry current
  by point lookups on service.updated events and by periodic full resyncs; this module proves that
  both paths lead to the same content, for any order and any duplication of events.
*/
module CacheSync {
  import opened Basics
  import opened Registry
  import opened RegistryRuns
  import opened LoadBalancer

  /** A service_instances row joined with its service's dns_name. */
  datatype Row = Row(dns: string, ip: string, port: int, healthy: bool)

  type Table = map<nat, Row>

  datatype Entry = Entry(dns: string, id: nat, ip: string, port: int)

  /** GetHealthyInstanceByContainer. */
  function HealthyEntry(t: Table, c: nat): Option<Entry> {
    if c in t && t[c].healthy then Some(Entry(t[c].dns, c, t[c].ip, t[c].port)) else None
  }

  /** ListHealthyRegistry: the healthy rows, each once, in some order. */
  ghost predicate Lists(entries: seq<Entry>, t: Table) {
    && (forall i, j :: 0 <= i < j < |entries| ==> entries[i].id != entries[j].id)
    && (forall i :: 0 <= i < |entries| ==> HealthyEntry(t, entries[i].id) == Some(entries[i]))
    && (forall c :: HealthyEntry(t, c).Some? ==> HealthyEntry(t, c).value in entries)
  }

  /** What the registry holds about a container: service, address and port. */
  ghost predicate Shows(b: ByDns, e: Entry) { e.dns in b && Instance(e.id, e.ip, e.port) in b[e.dns] }

  /** The registry says about c exactly what the table says. */
  ghost predicate Agrees(r: Reg, t: Table, c: nat) {
    forall e: Entry :: e.id == c ==> (Shows(r.byDns, e) <==> HealthyEntry(t, c) == Some(e))
  }

  /**
    What agreement on c means for its row: a healthy row's address is listed under the row's own name and
    nothing else is listed of c; without a healthy row, c is not registered.
  */
  lemma AgreementMeans(r: Reg, t: Table, c: nat)
    requires Agrees(r, t, c)
    ensures c in t && t[c].healthy ==>
              t[c].dns in r.byDns && Instance(c, t[c].ip, t[c].port) in r.byDns[t[c].dns] &&
              forall dns, x :: dns in r.byDns && x in r.byDns[dns] && x.id == c ==>
                                 dns == t[c].dns && x == Instance(c, t[c].ip, t[c].port)
    ensures c !in t || !t[c].healthy ==> !Registered(r.byDns, c)
  {
    if c in t && t[c].healthy {
      assert Shows(r.byDns, Entry(t[c].dns, c, t[c].ip, t[c].port));
    }
    forall dns, x | dns in r.byDns && x in r.byDns[dns] && x.id == c
      ensures HealthyEntry(t, c) == Some(Entry(dns, c, x.ip, x.port))
    {
      assert Shows(r.byDns, Entry(dns, c, x.ip, x.port));
    }
    if Registered(r.byDns, c) {
      var dns :| dns in r.byDns && HasId(r.byDns[dns], c);
      var i :| 0 <= i < |r.byDns[dns]| && r.byDns[dns][i].id == c;
      assert r.byDns[dns][i] in r.byDns[dns];
    }
  }

  // -- the full resync ----------------------------------------------------------------

  function Grouped(entries: seq<Entry>): ByDns {
    if entries == [] then map[]
    else
      var b, e := Grouped(entries[..|entries| - 1]), entries[|entries| - 1];
      b[e.dns := ListOf(b, e.dns) + [Instance(e.id, e.ip, e.port)]]
  }

  /** resync: group the rows by name, then swap the result in. */
  method Resync(reg: ServiceRegistry, entries: seq<Entry>, now: int)
    modifies reg
    ensures reg.View() == ReplacedAll(old(reg.View()), Grouped(entries), now)
  {
    var byDns: ByDns := map[];
    for i := 0 to |entries|
      invariant byDns == Grouped(entries[..i])
      invariant reg.View() == old(reg.View())
    {
      assert entries[..i + 1][..i] == entries[..i];
      var e := entries[i];
      var list := if e.dns in byDns then byDns[e.dns] else [];
      byDns := byDns[e.dns := list + [Instance(e.id, e.ip, e.port)]];
    }
    assert entries[..|entries|] == entries;
    reg.ReplaceAll(byDns, now);
  }

  lemma {:induction false} GroupedShows(entries: seq<Entry>, e: Entry)
    ensures Shows(Grouped(entries), e) <==> e in entries
  {
    if entries != [] {
      var front, last := entries[..|entries| - 1], entries[|entries| - 1];
      GroupedShows(front, e);
      assert entries == front + [last];
    }
  }

  /** Each service lists its rows in the order in which the query returned them. */
  lemma GroupedInOrder(entries: seq<Entry>, e: Entry, dns: string)
    ensures ListOf(Grouped(entries + [e]), dns) ==
            ListOf(Grouped(entries), dns) + if e.dns == dns then [Instance(e.id, e.ip, e.port)] else []
  {
    assert (entries + [e])[..|entries|] == entries;
  }

  lemma {:induction false} GroupedHasId(entries: seq<Entry>, dns: string, id: nat)
    ensures dns in Grouped(entries) && HasId(Grouped(entries)[dns], id) <==>
            exists i :: 0 <= i < |entries| && entries[i].dns == dns && entries[i].id == id
  {
    if entries != [] {
      var front, last := entries[..|entries| - 1], entries[|entries| - 1];
      GroupedHasId(front, dns, id);
      assert forall i :: 0 <= i < |front| ==> front[i] == entries[i];
      if dns == last.dns {
        HasIdAppend(ListOf(Grouped(front), dns), Instance(last.id, last.ip, last.port), id);
      }
    }
  }

  lemma {:induction false} GroupedDistinct(entries: seq<Entry>)
    requires forall i, j :: 0 <= i < j < |entries| ==> entries[i].id != entries[j].id
    ensures DistinctLists(Grouped(entries))
  {
    if entries != [] {
      var front, last := entries[..|entries| - 1], entries[|entries| - 1];
      GroupedDistinct(front);
      GroupedHasId(front, last.dns, last.id);
    }
  }

  /** The table's own names: a container's service never changes. */
  ghost predicate TableHomed(t: Table, home: nat -> string) { forall c :: c in t ==> t[c].dns == home(c) }

  lemma ResyncIsFed(entries: seq<Entry>, t: Table, home: nat -> string)
    requires Lists(entries, t) && TableHomed(t, home)
    ensures Fed(ReplaceAll(Grouped(entries)), home)
  {
    GroupedDistinct(entries);
    forall dns, id | dns in Grouped(entries) && HasId(Grouped(entries)[dns], id) ensures home(id) == dns {
      GroupedHasId(entries, dns, id);
      var i :| 0 <= i < |entries| && entries[i].dns == dns && entries[i].id == id;
    }
  }

  /** A fresh resync says about every container what the table says. */
  lemma ResyncAgrees(r: Reg, entries: seq<Entry>, t: Table, now: int, c: nat)
    requires Lists(entries, t)
    ensures Agrees(ReplacedAll(r, Grouped(entries), now), t, c)
  {
    forall e: Entry | e.id == c ensures Shows(Grouped(entries), e) <==> HealthyEntry(t, c) == Some(e) {
      GroupedShows(entries, e);
      if e in entries {
        var i :| 0 <= i < |entries| && entries[i] == e;
      }
    }
  }

  /** After a resync exactly the healthy rows are listed, each under its own name with its own address. */
  lemma ResyncFollowsRows(r: Reg, entries: seq<Entry>, t: Table, now: int, c: nat)
    requires Lists(entries, t)
    ensures var r' := ReplacedAll(r, Grouped(entries), now);
            if c in t && t[c].healthy then
              t[c].dns in r'.byDns && Instance(c, t[c].ip, t[c].port) in r'.byDns[t[c].dns]
            else !Registered(r'.byDns, c)
  {
    ResyncAgrees(r, entries, t, now, c);
    AgreementMeans(ReplacedAll(r, Grouped(entries), now), t, c);
  }

  // -- one service.updated event ------------------------------------------------------

  /** The registry operation an event about c leads to. */
  function LookupOp(t: Table, c: nat): Op {
    match HealthyEntry(t, c)
    case None => Remove(c)
    case Some(e) => Upsert(e.dns, Instance(e.id, e.ip, e.port))
  }

  /** handleServiceUpdated: look the container up, then upsert or evict it. */
  method HandleServiceUpdated(reg: ServiceRegistry, t: Table, c: nat, now: int)
    modifies reg
    ensures Steps(old(reg.View()), LookupOp(t, c), now, reg.View())
  {
    var entry := HealthyEntry(t, c);
    if entry.None? {
      reg.Remove(c);
      return;
    }
    reg.Upsert(entry.value.dns, Instance(entry.value.id, entry.value.ip, entry.value.port), now);
  }

  lemma WithInstanceShows(list: seq<Instance>, inst: Instance, x: Instance)
    requires DistinctIds(list)
    ensures x in WithInstance(list, inst) <==> x == inst || (x in list && x.id != inst.id)
  {
    if x in WithInstance(list, inst) {
      WithInstanceMember(list, inst, x);
    }
    var r := WithInstance(list, inst);
    var k := Find(list, inst.id);
    assert if k < |list| then r[k] == inst else r[|list|] == inst;
    if x in list && x.id != inst.id {
      var i :| 0 <= i < |list| && list[i] == x;
      assert r[i] == x;
    }
  }

  lemma UpsertShows(r: Reg, dns: string, inst: Instance, now: int, home: nat -> string, e: Entry)
    requires Structured(r, home) && home(inst.id) == dns
    ensures Shows(Upserted(r, dns, inst, now).byDns, e) <==>
            if e.id == inst.id then e == Entry(dns, inst.id, inst.ip, inst.port) else Shows(r.byDns, e)
  {
    var x := Instance(e.id, e.ip, e.port);
    WithInstanceShows(ListOf(r.byDns, dns), inst, x);
    if e.dns != dns && e.dns in r.byDns && x in r.byDns[e.dns] {
      MemberHasId(r.byDns, e.dns, x);
    }
  }

  lemma EvictShows(r: Reg, ids: set<nat>, e: Entry)
    ensures Shows(Evicted(r, ids).byDns, e) <==> Shows(r.byDns, e) && e.id !in ids
  {
    if e.dns in r.byDns {
      KeepMembers(r.byDns[e.dns], ids, Instance(e.id, e.ip, e.port));
    }
  }

  lemma ShowsRegisters(b: ByDns, e: Entry)
    requires Shows(b, e)
    ensures Registered(b, e.id)
  {
    MemberHasId(b, e.dns, Instance(e.id, e.ip, e.port));
  }

  lemma EventShows(r: Reg, t: Table, c: nat, now: int, r': Reg, home: nat -> string, e: Entry)
    requires Structured(r, home) && TableHomed(t, home) && Steps(r, LookupOp(t, c), now, r')
    ensures Shows(r'.byDns, e) <==> if e.id == c then HealthyEntry(t, c) == Some(e) else Shows(r.byDns, e)
  {
    var op := LookupOp(t, c);
    if op.Upsert? {
      UpsertShows(r, op.dns, op.inst, now, home, e);
    } else {
      RemovingEvicts(r, op, now, r', home);
      EvictShows(r, Evictees(r, op, now), e);
      if e.id == c && Shows(r.byDns, e) {
        ShowsRegisters(r.byDns, e);
      }
    }
  }

  /** Handling an event about c makes the registry agree on c and leaves every other container alone. */
  lemma EventAgrees(r: Reg, t: Table, c: nat, now: int, r': Reg, home: nat -> string, o: nat)
    requires Structured(r, home) && TableHomed(t, home) && Steps(r, LookupOp(t, c), now, r')
    ensures Structured(r', home)
    ensures Agrees(r', t, c)
    ensures o != c ==> (Agrees(r', t, o) <==> Agrees(r, t, o))
  {
    StepKeepsStructure(r, LookupOp(t, c), now, r', home);
    forall e: Entry
      ensures Shows(r'.byDns, e) <==> if e.id == c then HealthyEntry(t, c) == Some(e) else Shows(r.byDns, e)
    {
      EventShows(r, t, c, now, r', home, e);
    }
  }

  /** After an event about c, its healthy row's address is listed under the row's name; without one, c is not registered. */
  lemma EventFollowsRow(r: Reg, t: Table, c: nat, now: int, r': Reg, home: nat -> string)
    requires Structured(r, home) && TableHomed(t, home) && Steps(r, LookupOp(t, c), now, r')
    ensures if c in t && t[c].healthy then
              t[c].dns in r'.byDns && Instance(c, t[c].ip, t[c].port) in r'.byDns[t[c].dns]
            else !Registered(r'.byDns, c)
  {
    EventAgrees(r, t, c, now, r', home, c);
    AgreementMeans(r', t, c);
  }

  /**
    The fixed-service hypothesis is exact: with unique ids, handling an event about a healthy c makes
    the registry agree on c if and only if no service but the table's own already holds c.
  */
  lemma EventAgreesIff(r: Reg, t: Table, c: nat, now: int)
    requires Unique(r.byDns) && HealthyEntry(t, c).Some?
    ensures var dns := t[c].dns;
            Agrees(Upserted(r, dns, Instance(c, t[c].ip, t[c].port), now), t, c) <==>
            forall d :: d in r.byDns && d != dns ==> !HasId(r.byDns[d], c)
  {
    var dns, inst := t[c].dns, Instance(c, t[c].ip, t[c].port);
    var r' := Upserted(r, dns, inst, now);
    if d :| d in r.byDns && d != dns && HasId(r.byDns[d], c) {
      var i :| 0 <= i < |r.byDns[d]| && r.byDns[d][i].id == c;
      var x := r.byDns[d][i];
      assert Shows(r'.byDns, Entry(d, c, x.ip, x.port));
    } else {
      forall e: Entry | e.id == c ensures Shows(r'.byDns, e) <==> HealthyEntry(t, c) == Some(e) {
        var x := Instance(c, e.ip, e.port);
        WithInstanceShows(ListOf(r.byDns, dns), inst, x);
        if e.dns != dns && e.dns in r.byDns && x in r.byDns[e.dns] {
          MemberHasId(r.byDns, e.dns, x);
        }
      }
    }
  }

  // -- whole histories ----------------------------------------------------------------

  datatype Event =
    | Change(c: nat, row: Option<Row>)   // the controller writes or deletes an instance row
    | Handle(c: nat)                     // a service.updated event is handled
    | FullResync(entries: seq<Entry>)
    | Local(op: Op)                      // health marks, reads and sweeps

  datatype System = System(table: Table, reg: Reg)

  ghost predicate Happens(s: System, ev: Event, now: int, s': System) {
    match ev
    case Change(c, row) =>
      s'.reg == s.reg && s'.table == if row.Some? then s.table[c := row.value] else s.table - {c}
    case Handle(c) => s'.table == s.table && Steps(s.reg, LookupOp(s.table, c), now, s'.reg)
    case FullResync(entries) =>
      s'.table == s.table && Lists(entries, s.table) && Steps(s.reg, ReplaceAll(Grouped(entries)), now, s'.reg)
    case Local(op) =>
      s'.table == s.table && (op.MarkUnhealthy? || op.MarkHealthy? || op.Next? || op.Sweep?) && Steps(s.reg, op, now, s'.reg)
  }

  ghost predicate IsHistory(states: seq<System>, events: seq<Event>, times: seq<int>, home: nat -> string) {
    && |states| == |events| + 1 && |times| == |events|
    && (forall i :: 0 <= i < |events| ==> Happens(states[i], events[i], times[i], states[i + 1]))
    && (forall i :: 0 <= i < |states| ==> TableHomed(states[i].table, home))
    && Structured(states[0].reg, home)
  }

  /** The event may have put the registry out of date about c: a row change or a sweep of c. */
  ghost predicate Touches(s: System, ev: Event, now: int, c: nat) {
    (ev.Change? && ev.c == c) || (ev.Local? && ev.op.Sweep? && c in Stale(s.reg, ev.op.ttl, now))
  }

  ghost predicate Refreshes(ev: Event, c: nat) { ev.FullResync? || (ev.Handle? && ev.c == c) }

  lemma LocalAgrees(s: System, op: Op, now: int, s': System, home: nat -> string, c: nat)
    requires Structured(s.reg, home) && Happens(s, Local(op), now, s') && !Touches(s, Local(op), now, c)
    ensures Agrees(s'.reg, s'.table, c) <==> Agrees(s.reg, s.table, c)
  {
    if op.Sweep? {
      RemovingEvicts(s.reg, op, now, s'.reg, home);
      forall e: Entry | e.id == c ensures Shows(s'.reg.byDns, e) <==> Shows(s.reg.byDns, e) {
        EvictShows(s.reg, Stale(s.reg, op.ttl, now), e);
      }
    }
  }

  lemma HappensKeepsAgreement(s: System, ev: Event, now: int, s': System, home: nat -> string, c: nat)
    requires Structured(s.reg, home) && TableHomed(s.table, home) && Happens(s, ev, now, s')
    ensures Structured(s'.reg, home)
    ensures Refreshes(ev, c) || (Agrees(s.reg, s.table, c) && !Touches(s, ev, now, c)) ==> Agrees(s'.reg, s'.table, c)
  {
    match ev
    case Change(_, _) =>
    case Handle(d) => EventAgrees(s.reg, s.table, d, now, s'.reg, home, c);
    case FullResync(entries) =>
      ResyncIsFed(entries, s.table, home);
      StepKeepsStructure(s.reg, ReplaceAll(Grouped(entries)), now, s'.reg, home);
      ResyncAgrees(s.reg, entries, s.table, now, c);
    case Local(op) =>
      StepKeepsStructure(s.reg, op, now, s'.reg, home);
      if !Touches(s, ev, now, c) {
        LocalAgrees(s, op, now, s', home, c);
      }
  }

  lemma {:induction false} HistoryStructured(
    states: seq<System>, events: seq<Event>, times: seq<int>, home: nat -> string, i: nat)
    requires IsHistory(states, events, times, home) && i < |states|
    ensures Structured(states[i].reg, home)
  {
    if i > 0 {
      HistoryStructured(states, events, times, home, i - 1);
      HappensKeepsAgreement(states[i - 1], events[i - 1], times[i - 1], states[i], home, 0);
    }
  }

  ghost predicate Current(s: System, c: nat) { Agrees(s.reg, s.table, c) }

  lemma {:induction false} CurrentUntil(states: seq<System>, c: nat, from: nat, i: nat)
    requires from <= i < |states| && Current(states[from], c)
    requires forall j :: from <= j < i && Current(states[j], c) ==> Current(states[j + 1], c)
    ensures Current(states[i], c)
  {
    if i > from {
      CurrentUntil(states, c, from, i - 1);
      assert Current(states[i - 1 + 1], c);
    }
  }

  /** Agreement on c holds at i if it held at the start, or was refreshed, and c was not touched since. */
  lemma AgreesUntilTouched(
    states: seq<System>, events: seq<Event>, times: seq<int>, home: nat -> string, c: nat, from: nat, i: nat)
    requires IsHistory(states, events, times, home) && from <= i < |states|
    requires Agrees(states[from].reg, states[from].table, c)
    requires forall j :: from <= j < i ==> !Touches(states[j], events[j], times[j], c)
    ensures Agrees(states[i].reg, states[i].table, c)
  {
    forall j | from <= j < i && Current(states[j], c) ensures Current(states[j + 1], c) {
      HistoryStructured(states, events, times, home, j);
      HappensKeepsAgreement(states[j], events[j], times[j], states[j + 1], home, c);
    }
    CurrentUntil(states, c, from, i);
    assert Current(states[i], c);
  }

  /** Every touch of c is followed by an event about c or a resync. */
  ghost predicate CaughtUp(states: seq<System>, events: seq<Event>, times: seq<int>, c: nat)
    requires |states| == |events| + 1 && |times| == |events|
  {
    forall i :: 0 <= i < |events| && Touches(states[i], events[i], times[i], c) ==>
                  exists j :: i < j < |events| && Refreshes(events[j], c)
  }

  lemma {:induction false} LastTouch(states: seq<System>, events: seq<Event>, times: seq<int>, c: nat, n: nat) returns (i: nat)
    requires |states| == |events| + 1 && |times| == |events| && n <= |events|
    requires exists j :: 0 <= j < n && Touches(states[j], events[j], times[j], c)
    ensures i < n && Touches(states[i], events[i], times[i], c)
    ensures forall j :: i < j < n ==> !Touches(states[j], events[j], times[j], c)
  {
    if Touches(states[n - 1], events[n - 1], times[n - 1], c) {
      i := n - 1;
    } else {
      i := LastTouch(states, events, times, c, n - 1);
    }
  }

  /** Agreement on c holds at the end if c was refreshed at j and not touched after it. */
  lemma AgreesSinceRefresh(states: seq<System>, events: seq<Event>, times: seq<int>, home: nat -> string, c: nat, j: nat)
    requires IsHistory(states, events, times, home) && j < |events| && Refreshes(events[j], c)
    requires forall k :: j < k < |events| ==> !Touches(states[k], events[k], times[k], c)
    ensures Agrees(states[|events|].reg, states[|events|].table, c)
  {
    HistoryStructured(states, events, times, home, j);
    HappensKeepsAgreement(states[j], events[j], times[j], states[j + 1], home, c);
    AgreesUntilTouched(states, events, times, home, c, j + 1, |events|);
  }

  /**
    Incremental equals recompute, per container: for any history of row changes, events in any order
    and multiplicity, resyncs, sweeps and health marks, if each change of c is followed by some event
    about c or a resync, the registry ends up saying about c exactly what the table says.
  */
  lemma CacheAgrees(states: seq<System>, events: seq<Event>, times: seq<int>, home: nat -> string, c: nat)
    requires IsHistory(states, events, times, home) && Agrees(states[0].reg, states[0].table, c)
    requires CaughtUp(states, events, times, c)
    ensures Agrees(states[|events|].reg, states[|events|].table, c)
  {
    if exists j :: 0 <= j < |events| && Touches(states[j], events[j], times[j], c) {
      var last := LastTouch(states, events, times, c, |events|);
      var j :| last < j < |events| && Refreshes(events[j], c);
      AgreesSinceRefresh(states, events, times, home, c, j);
    } else {
      AgreesUntilTouched(states, events, times, home, c, 0, |events|);
    }
  }

  /**
    Incremental cache equals full recompute: if every container has been caught up with, the registry
    holds exactly the entries that a fresh resync of the final table would put there.
  */
  lemma IncrementalEqualsResync(
    states: seq<System>, events: seq<Event>, times: seq<int>, home: nat -> string, entries: seq<Entry>, now: int, e: Entry)
    requires IsHistory(states, events, times, home)
    requires forall c :: Agrees(states[0].reg, states[0].table, c) && CaughtUp(states, events, times, c)
    requires Lists(entries, states[|events|].table)
    ensures var last := states[|events|];
            Shows(last.reg.byDns, e) <==> Shows(ReplacedAll(last.reg, Grouped(entries), now).byDns, e)
  {
    var last := states[|events|];
    CacheAgrees(states, events, times, home, e.id);
    ResyncAgrees(last.reg, entries, last.table, now, e.id);
  }
}
