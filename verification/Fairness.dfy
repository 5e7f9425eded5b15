/**
  Fairness of the request path as a whole: over any run of the registry, with the strategy's
  counters carried along, the instances a service can be routed to share its requests evenly for
  as long as that set of instances stays the same.
*/
module Fairness {
  import opened Basics
  import opened RoundRobin
  import opened Registry
  import opened RegistryRuns

  /** The strategy's counters along the run: only Next advances them. */
  ghost predicate Carries(states: seq<Reg>, ops: seq<Op>, times: seq<int>, counters: seq<Counters>) {
    && |states| == |counters| == |ops| + 1 && |times| == |ops|
    && forall i :: 0 <= i < |ops| ==>
         counters[i + 1] == if ops[i].Next? then Turned(states[i], counters[i], ops[i].dns, times[i]) else counters[i]
  }

  /** How many requests for the service were made from operation `from` up to i. */
  ghost function Asked(ops: seq<Op>, from: nat, i: nat, dns: string): nat
    requires from <= i <= |ops|
  {
    if i == from then 0 else Asked(ops, from, i - 1, dns) + if ops[i - 1] == Next(dns) then 1 else 0
  }

  /** ... and how many of them were routed to x. */
  ghost function Routed(
    states: seq<Reg>, ops: seq<Op>, times: seq<int>, counters: seq<Counters>, from: nat, i: nat, dns: string, x: Instance): nat
    requires |states| == |ops| + 1 && |times| == |ops| && |counters| == |states| && from <= i <= |ops|
  {
    if i == from then 0
    else Routed(states, ops, times, counters, from, i - 1, dns, x) +
         if ops[i - 1] == Next(dns) && Answered(states[i - 1], counters[i - 1], dns, times[i - 1]) == Some(x) then 1 else 0
  }

  /** The calls of the strategy that these operations lead to. */
  ghost function CallsIn(states: seq<Reg>, ops: seq<Op>, times: seq<int>, from: nat, i: nat): (r: seq<Call>)
    requires |states| == |ops| + 1 && |times| == |ops| && from <= i <= |ops|
    ensures Callable(r)
  {
    if i == from then []
    else
      var before := CallsIn(states, ops, times, from, i - 1);
      if ops[i - 1].Next? && Choices(states[i - 1], ops[i - 1].dns, times[i - 1]) != [] then
        before + [Call(ops[i - 1].dns, |Choices(states[i - 1], ops[i - 1].dns, times[i - 1])|)]
      else before
  }

  /** While the instances to choose from stay a, the calls for the service range over a. */
  ghost predicate Tallied(
    states: seq<Reg>, ops: seq<Op>, times: seq<int>, counters: seq<Counters>, from: nat, i: nat, dns: string,
    a: seq<Instance>, x: Instance)
    requires Carries(states, ops, times, counters) && from <= i <= |ops|
  {
    var calls := CallsIn(states, ops, times, from, i);
    && (forall k :: 0 <= k < |calls| && calls[k].key == dns ==> calls[k].n == |a|)
    && counters[i] == CountersAfter(counters[from], calls)
    && CallsFor(calls, dns) == Asked(ops, from, i, dns)
    && Answers(counters[from], calls, dns, a, x) == Routed(states, ops, times, counters, from, i, dns, x)
  }

  /** One more call of the strategy is tallied right, if a call for the service ranges over a. */
  lemma TallyCall(
    states: seq<Reg>, ops: seq<Op>, times: seq<int>, counters: seq<Counters>, from: nat, i: nat, dns: string,
    a: seq<Instance>, x: Instance)
    requires Carries(states, ops, times, counters) && from <= i < |ops| && ops[i].Next?
    requires Choices(states[i], ops[i].dns, times[i]) != []
    requires ops[i].dns == dns ==> Choices(states[i], dns, times[i]) == a
    requires Tallied(states, ops, times, counters, from, i, dns, a, x)
    ensures Tallied(states, ops, times, counters, from, i + 1, dns, a, x)
  {
    var call := Call(ops[i].dns, |Choices(states[i], ops[i].dns, times[i])|);
    assert CallsIn(states, ops, times, from, i + 1) == CallsIn(states, ops, times, from, i) + [call];
    CallMore(counters[from], CallsIn(states, ops, times, from, i), call, dns, a, x);
  }

  /** Requests are calls of the strategy, and their answers the strategy's. */
  lemma {:induction false} RoutedAreAnswers(
    states: seq<Reg>, ops: seq<Op>, times: seq<int>, counters: seq<Counters>, from: nat, i: nat, dns: string,
    a: seq<Instance>, x: Instance)
    requires Carries(states, ops, times, counters) && from <= i <= |ops| && a != []
    requires forall j :: from <= j < i && ops[j] == Next(dns) ==> Choices(states[j], dns, times[j]) == a
    ensures Tallied(states, ops, times, counters, from, i, dns, a, x)
  {
    if i > from {
      RoutedAreAnswers(states, ops, times, counters, from, i - 1, dns, a, x);
      if ops[i - 1].Next? && Choices(states[i - 1], ops[i - 1].dns, times[i - 1]) != [] {
        TallyCall(states, ops, times, counters, from, i - 1, dns, a, x);
      }
    }
  }

  lemma {:induction false} AvailableDistinct(r: Reg, list: seq<Instance>, now: int)
    requires DistinctIds(list)
    ensures DistinctIds(Available(r, list, now))
  {
    if list != [] {
      var front, last := list[..|list| - 1], list[|list| - 1];
      AvailableDistinct(r, front, now);
      forall x | x in Available(r, front, now) ensures x.id != last.id {
        AvailableMember(r, front, now, x);
      }
    }
  }

  lemma ChoicesDistinct(states: seq<Reg>, ops: seq<Op>, times: seq<int>, home: nat -> string, j: nat, dns: string, now: int)
    requires IsRun(states, ops, times) && states[0] == EMPTY && j < |states|
    requires forall p :: 0 <= p < |ops| ==> Fed(ops[p], home)
    ensures Distinct(Choices(states[j], dns, now))
  {
    StructureHolds(states, ops, times, home, j);
    AvailableDistinct(states[j], ListOf(states[j].byDns, dns), now);
  }

  lemma {:induction false} AskedSomewhere(ops: seq<Op>, from: nat, i: nat, dns: string)
    requires from <= i <= |ops| && Asked(ops, from, i, dns) > 0
    ensures exists j :: from <= j < i && ops[j] == Next(dns)
  {
    if ops[i - 1] != Next(dns) {
      AskedSomewhere(ops, from, i - 1, dns);
    }
  }

  lemma {:induction false} RoutedIfAsked(
    states: seq<Reg>, ops: seq<Op>, times: seq<int>, counters: seq<Counters>, from: nat, i: nat, dns: string, x: Instance)
    requires |states| == |ops| + 1 && |times| == |ops| && |counters| == |states| && from <= i <= |ops|
    ensures Routed(states, ops, times, counters, from, i, dns, x) <= Asked(ops, from, i, dns)
  {
    if i > from {
      RoutedIfAsked(states, ops, times, counters, from, i - 1, dns, x);
    }
  }

  /**
    Fair routing: take any stretch of any run in which every request for a service finds the same
    non-empty list a of unejected instances, whatever else happens to the registry and to other services.
    Of its m requests, each instance of a answers floor(m / |a|) or ceil(m / |a|), from any counters.
  */
  lemma FairRouting(
    states: seq<Reg>, ops: seq<Op>, times: seq<int>, counters: seq<Counters>, home: nat -> string,
    from: nat, i: nat, dns: string, a: seq<Instance>, x: Instance)
    requires IsRun(states, ops, times) && Carries(states, ops, times, counters) && states[0] == EMPTY && from <= i <= |ops|
    requires forall j :: 0 <= j < |ops| ==> Fed(ops[j], home)
    requires forall j :: from <= j < i && ops[j] == Next(dns) ==> Choices(states[j], dns, times[j]) == a
    requires x in a
    ensures var m := Asked(ops, from, i, dns);
            m / |a| <= Routed(states, ops, times, counters, from, i, dns, x) <= m / |a| + if m % |a| == 0 then 0 else 1
  {
    if Asked(ops, from, i, dns) == 0 {
      RoutedIfAsked(states, ops, times, counters, from, i, dns, x);
    } else {
      AskedSomewhere(ops, from, i, dns);
      var j :| from <= j < i && ops[j] == Next(dns);
      ChoicesDistinct(states, ops, times, home, j, dns, times[j]);
      RoutedAreAnswers(states, ops, times, counters, from, i, dns, a, x);
      InstancesShareEvenly(counters[from], CallsIn(states, ops, times, from, i), dns, a, x);
    }
  }
}
