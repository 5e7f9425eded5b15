/** The registry as the load balancer runs it: in-place updates under one lock, searched by loops. */
module LoadBalancer {
  import opened Basics
  import opened RoundRobin
  import opened Registry

  class ServiceRegistry {
    var byDns: ByDns
    var lastSeen: map<nat, int>
    var unhealthyUntil: map<nat, int>
    const strategy: Strategy

    ghost function View(): Reg
      reads this
    {
      Reg(byDns, lastSeen, unhealthyUntil)
    }

    constructor (strat: Strategy)
      ensures View() == EMPTY && strategy == strat
    {
      byDns, lastSeen, unhealthyUntil, strategy := map[], map[], map[], strat;
    }

    /** Record every instance of the fresh listing as seen now. */
    method SeenIn(b: ByDns, now: int) returns (seen: map<nat, int>)
      ensures seen == map id | id in Ids(b) :: now
    {
      seen := map[];
      var names := b.Keys;
      while names != {}
        invariant names <= b.Keys
        invariant forall id :: id in seen <==> exists dns :: dns in b && dns !in names && HasId(b[dns], id)
        invariant forall id :: id in seen ==> seen[id] == now
        decreases names
      {
        var dns :| dns in names;
        ghost var before := seen;
        for i := 0 to |b[dns]|
          invariant forall id :: id in seen <==> id in before || exists j :: 0 <= j < i && b[dns][j].id == id
          invariant forall id :: id in seen ==> seen[id] == now
        {
          seen := seen[b[dns][i].id := now];
        }
        names := names - {dns};
      }
      assert seen.Keys == Ids(b);
    }

    /** Drop the marks of instances the fresh listing no longer mentions. */
    method DropMarks(seen: map<nat, int>)
      modifies this`unhealthyUntil
      ensures unhealthyUntil == map id | id in old(unhealthyUntil) && id in seen :: old(unhealthyUntil)[id]
    {
      var marks := unhealthyUntil.Keys;
      while marks != {}
        invariant marks <= unhealthyUntil.Keys <= old(unhealthyUntil).Keys
        invariant forall id :: id in old(unhealthyUntil) ==> (id in unhealthyUntil <==> id in marks || id in seen)
        invariant forall id :: id in unhealthyUntil ==> unhealthyUntil[id] == old(unhealthyUntil)[id]
        decreases marks
      {
        var id :| id in marks;
        if id !in seen {
          unhealthyUntil := unhealthyUntil - {id};
        }
        marks := marks - {id};
      }
    }

    method ReplaceAll(b: ByDns, now: int)
      modifies this
      ensures View() == ReplacedAll(old(View()), b, now)
    {
      byDns := b;
      lastSeen := SeenIn(b, now);
      DropMarks(lastSeen);
    }

    method Upsert(dns: string, inst: Instance, now: int)
      modifies this`byDns, this`lastSeen
      ensures View() == Upserted(old(View()), dns, inst, now)
    {
      var list := if dns in byDns then byDns[dns] else [];
      for i := 0 to |list|
        invariant forall j :: 0 <= j < i ==> list[j].id != inst.id
        invariant View() == old(View())
      {
        if list[i].id == inst.id {
          byDns := byDns[dns := list[i := inst]];
          lastSeen := lastSeen[inst.id := now];
          return;
        }
      }
      byDns := byDns[dns := list + [inst]];
      lastSeen := lastSeen[inst.id := now];
    }

    /** removeLocked: only the first occurrence met is dropped. */
    method Remove(id: nat)
      modifies this
      ensures Removes(old(View()), id, View())
    {
      var names := byDns.Keys;
      while names != {}
        invariant names <= byDns.Keys && View() == old(View())
        invariant forall dns :: dns in byDns && dns !in names ==> !HasId(byDns[dns], id)
        decreases names
      {
        var dns :| dns in names;
        var list := byDns[dns];
        for i := 0 to |list|
          invariant forall j :: 0 <= j < i ==> list[j].id != id
          invariant View() == old(View())
        {
          if list[i].id == id {
            byDns := byDns[dns := list[..i] + list[i + 1..]];
            lastSeen := lastSeen - {id};
            unhealthyUntil := unhealthyUntil - {id};
            assert HasId(list, id) && Find(list, id) == i;
            return;
          }
        }
        names := names - {dns};
      }
    }

    method MarkUnhealthy(id: nat, duration: int, now: int)
      modifies this`unhealthyUntil
      ensures View() == old(View()).(unhealthyUntil := old(unhealthyUntil)[id := now + duration])
    {
      unhealthyUntil := unhealthyUntil[id := now + duration];
    }

    method MarkHealthy(id: nat)
      modifies this`unhealthyUntil
      ensures View() == old(View()).(unhealthyUntil := old(unhealthyUntil) - {id})
    {
      unhealthyUntil := unhealthyUntil - {id};
    }

    /** Next fails exactly when every registered instance of the service is ejected. */
    method Next(dns: string, now: int) returns (r: Option<Instance>)
      modifies strategy
      ensures r.None? <==>
              forall x :: x in ListOf(byDns, dns) ==> x.id in unhealthyUntil && now < unhealthyUntil[x.id]
      ensures r.Some? ==>
                dns in byDns && r.value in byDns[dns] &&
                (r.value.id in unhealthyUntil ==> unhealthyUntil[r.value.id] <= now)
      ensures r == Answered(View(), old(strategy.counters), dns, now)
      ensures strategy.counters == Turned(View(), old(strategy.counters), dns, now)
    {
      var list := if dns in byDns then byDns[dns] else [];
      var available: seq<Instance> := [];
      for i := 0 to |list|
        invariant available == Available(View(), list[..i], now)
        invariant forall j :: 0 <= j < i ==> list[j] in available || Ejected(View(), list[j].id, now)
        invariant forall j :: 0 <= j < |available| ==> available[j] in list && !Ejected(View(), available[j].id, now)
      {
        assert list[..i + 1][..i] == list[..i];
        if !(list[i].id in unhealthyUntil && unhealthyUntil[list[i].id] > now) {
          available := available + [list[i]];
        }
      }
      assert list[..|list|] == list;
      if available == [] {
        return None;
      }
      var k := strategy.Next(dns, |available|);
      assert available[0] in list;
      return Some(available[k]);
    }

    /** Sweep: collect the stale ids first, then remove them one by one. */
    method Sweep(ttl: int, now: int)
      modifies this
      ensures Sweeps(old(View()), ttl, now, View())
    {
      var cutoff := now - ttl;
      var stale: seq<nat> := [];
      var ids := lastSeen.Keys;
      while ids != {}
        invariant ids <= lastSeen.Keys && View() == old(View()) && Distinct(stale)
        invariant forall id :: id in stale <==> id in lastSeen && id !in ids && lastSeen[id] < cutoff
        decreases ids
      {
        var id :| id in ids;
        if lastSeen[id] < cutoff {
          stale := stale + [id];
        }
        ids := ids - {id};
      }
      assert Members(stale) == Stale(View(), ttl, now);
      ghost var chain := [View()];
      for i := 0 to |stale|
        invariant RemovesEach(chain, stale[..i]) && chain[0] == old(View()) && chain[i] == View()
      {
        Remove(stale[i]);
        chain := chain + [View()];
      }
      assert stale[..|stale|] == stale;
      assert SweepsVia(old(View()), ttl, now, stale, chain);
    }
  }
}
