/** The balancing strategy: a counter per service, advanced and wrapped on every pick. */
module RoundRobin {
  import opened Basics

  type Counters = map<string, nat>

  function CounterOf(c: Counters, key: string): nat { if key in c then c[key] else 0 }

  function Index(c: Counters, key: string, n: nat): (i: nat)
    requires n > 0
    ensures i < n
  {
    CounterOf(c, key) % n
  }

  function Advanced(c: Counters, key: string, n: nat): Counters
    requires n > 0
  {
    c[key := (Index(c, key, n) + 1) % n]
  }

  class Strategy {
    var counters: Counters

    constructor ()
      ensures counters == map[]
    {
      counters := map[];
    }

    method Next(key: string, n: nat) returns (i: nat)
      requires n > 0
      modifies this
      ensures i == Index(old(counters), key, n) && i < n
      ensures counters == Advanced(old(counters), key, n)
    {
      i := CounterOf(counters, key) % n;
      counters := counters[key := (i + 1) % n];
    }
  }

  // -- fairness over any interleaving of services --------------------------------------

  datatype Call = Call(key: string, n: nat)

  ghost predicate Callable(calls: seq<Call>) {
    forall i :: 0 <= i < |calls| ==> calls[i].n > 0
  }

  ghost function CountersAfter(c: Counters, calls: seq<Call>): Counters
    requires Callable(calls)
  {
    if calls == [] then c
    else Advanced(CountersAfter(c, calls[..|calls| - 1]), calls[|calls| - 1].key, calls[|calls| - 1].n)
  }

  /** The index returned by the last call. */
  ghost function LastPick(c: Counters, calls: seq<Call>): nat
    requires Callable(calls) && calls != []
  {
    Index(CountersAfter(c, calls[..|calls| - 1]), calls[|calls| - 1].key, calls[|calls| - 1].n)
  }

  ghost function CallsFor(calls: seq<Call>, key: string): nat {
    if calls == [] then 0
    else CallsFor(calls[..|calls| - 1], key) + if calls[|calls| - 1].key == key then 1 else 0
  }

  /** How many of the calls for the key returned v. */
  ghost function Turns(c: Counters, calls: seq<Call>, key: string, v: nat): nat
    requires Callable(calls)
  {
    if calls == [] then 0
    else Turns(c, calls[..|calls| - 1], key, v) +
         if calls[|calls| - 1].key == key && LastPick(c, calls) == v then 1 else 0
  }

  // -- arithmetic of one rotation -----------------------------------------------------

  lemma AtLeastOnce(d: nat, n: nat)
    requires d >= 1
    ensures d * n >= n
  {
  }

  lemma DivUnique(m: nat, q: nat, r: nat, n: nat)
    requires r < n && m == q * n + r
    ensures m / n == q && m % n == r
  {
    var q', r' := m / n, m % n;
    assert m == q' * n + r';
    if q' > q {
      AtLeastOnce(q' - q, n);
    } else if q > q' {
      AtLeastOnce(q - q', n);
    }
  }

  /** Advancing an in-range index wraps exactly at n. */
  lemma Wraps(i: nat, n: nat)
    requires i < n
    ensures (i + 1) % n == if i + 1 == n then 0 else i + 1
  {
    if i + 1 == n {
      DivUnique(n, 1, 0, n);
    } else {
      DivUnique(i + 1, 0, i + 1, n);
    }
  }

  /** How far v lies ahead of start in a cycle of n. */
  function Ahead(start: nat, v: nat, n: nat): nat
    requires start < n && v < n
  {
    if v >= start then v - start else v + n - start
  }

  /** `laps` full cycles and `rem` further picks from `start` have been served to the key. */
  ghost predicate Served(c: Counters, calls: seq<Call>, key: string, n: nat, laps: nat, rem: nat)
    requires Callable(calls) && n > 0
  {
    var start := CounterOf(c, key) % n;
    && rem < n
    && CallsFor(calls, key) == laps * n + rem
    && Ahead(start, CounterOf(CountersAfter(c, calls), key) % n, n) == rem
    && forall v :: 0 <= v < n ==> Turns(c, calls, key, v) == laps + if Ahead(start, v, n) < rem then 1 else 0
  }

  lemma ServeOneMore(c: Counters, calls: seq<Call>, key: string, n: nat, laps: nat, rem: nat)
    requires Callable(calls) && calls != [] && n > 0 && calls[|calls| - 1] == Call(key, n)
    requires Served(c, calls[..|calls| - 1], key, n, laps, rem)
    ensures if rem + 1 == n then Served(c, calls, key, n, laps + 1, 0) else Served(c, calls, key, n, laps, rem + 1)
  {
    var i := LastPick(c, calls);
    Wraps(i, n);
    var next := (i + 1) % n;
    DivUnique(next, 0, next, n);
    assert (laps + 1) * n == laps * n + n;
    assert CounterOf(CountersAfter(c, calls), key) == next;
  }

  lemma {:induction false} ServedSoFar(c: Counters, calls: seq<Call>, key: string, n: nat) returns (laps: nat, rem: nat)
    requires Callable(calls) && n > 0
    requires forall i :: 0 <= i < |calls| && calls[i].key == key ==> calls[i].n == n
    ensures Served(c, calls, key, n, laps, rem)
  {
    if calls == [] {
      laps, rem := 0, 0;
    } else {
      laps, rem := ServedSoFar(c, calls[..|calls| - 1], key, n);
      if calls[|calls| - 1].key == key {
        ServeOneMore(c, calls, key, n, laps, rem);
        laps, rem := if rem + 1 == n then laps + 1 else laps, if rem + 1 == n then 0 else rem + 1;
      }
    }
  }

  /**
    Fairness: in any interleaving of calls for any services, if a service's number of available
    instances stays n, each of its n indices is returned either floor(m/n) or ceil(m/n) times in
    its m calls, whatever the counters started from.
  */
  lemma RoundRobinFair(c: Counters, calls: seq<Call>, key: string, n: nat, v: nat)
    requires Callable(calls) && n > 0 && v < n
    requires forall i :: 0 <= i < |calls| && calls[i].key == key ==> calls[i].n == n
    ensures var m := CallsFor(calls, key);
            m / n <= Turns(c, calls, key, v) <= m / n + if m % n == 0 then 0 else 1
  {
    var laps, rem := ServedSoFar(c, calls, key, n);
    DivUnique(CallsFor(calls, key), laps, rem, n);
  }

  lemma NextMod(x: nat, n: nat)
    requires n > 0
    ensures (x % n + 1) % n == (x + 1) % n
  {
    var q, r := x / n, x % n;
    assert x == q * n + r;
    if r + 1 == n {
      assert x + 1 == (q + 1) * n;
      DivUnique(x + 1, q + 1, 0, n);
    } else {
      DivUnique(x + 1, q, r + 1, n);
    }
    Wraps(r, n);
  }

  /**
    The rotation, exactly: while a key's n stays the same, its picks run through 0, 1, ..., n - 1 and around
    again, one step per call of that key, from wherever its counter stood; a new key starts at 0.
  */
  lemma {:induction false} PicksCycle(c: Counters, calls: seq<Call>, key: string, n: nat)
    requires Callable(calls) && n > 0
    requires forall i :: 0 <= i < |calls| && calls[i].key == key ==> calls[i].n == n
    ensures Index(CountersAfter(c, calls), key, n) == ((if key in c then c[key] else 0) + CallsFor(calls, key)) % n
  {
    if calls != [] {
      var front := calls[..|calls| - 1];
      PicksCycle(c, front, key, n);
      var before := (if key in c then c[key] else 0) + CallsFor(front, key);
      if calls[|calls| - 1].key == key {
        NextMod(before, n);
        var next := (before + 1) % n;
        DivUnique(next, 0, next, n);
      }
    }
  }

  /** How many of the calls for the key were answered with x, the list of instances being a. */
  ghost function Answers<T>(c: Counters, calls: seq<Call>, key: string, a: seq<T>, x: T): nat
    requires Callable(calls) && forall i :: 0 <= i < |calls| && calls[i].key == key ==> calls[i].n == |a|
  {
    if calls == [] then 0
    else Answers(c, calls[..|calls| - 1], key, a, x) +
         if calls[|calls| - 1].key == key && a[LastPick(c, calls)] == x then 1 else 0
  }

  /** What one more call adds. */
  lemma CallMore<T>(c: Counters, calls: seq<Call>, call: Call, key: string, a: seq<T>, x: T)
    requires Callable(calls) && call.n > 0 && (call.key == key ==> call.n == |a|)
    requires forall i :: 0 <= i < |calls| && calls[i].key == key ==> calls[i].n == |a|
    ensures var more, now := calls + [call], CountersAfter(c, calls);
            && CountersAfter(c, more) == Advanced(now, call.key, call.n)
            && CallsFor(more, key) == CallsFor(calls, key) + (if call.key == key then 1 else 0)
            && Answers(c, more, key, a, x) == Answers(c, calls, key, a, x) +
                 if call.key == key && a[Index(now, key, |a|)] == x then 1 else 0
  {
    assert (calls + [call])[..|calls|] == calls;
  }

  lemma {:induction false} AnswersAreTurns<T>(c: Counters, calls: seq<Call>, key: string, a: seq<T>, v: nat)
    requires Callable(calls) && forall i :: 0 <= i < |calls| && calls[i].key == key ==> calls[i].n == |a|
    requires Distinct(a) && v < |a|
    ensures Answers(c, calls, key, a, a[v]) == Turns(c, calls, key, v)
  {
    if calls != [] {
      AnswersAreTurns(c, calls[..|calls| - 1], key, a, v);
      if calls[|calls| - 1].key == key {
        var i := LastPick(c, calls);
        assert a[i] == a[v] <==> i == v;
      }
    }
  }

  /** While a service's available instances stay the same, they share its requests evenly. */
  lemma InstancesShareEvenly<T>(c: Counters, calls: seq<Call>, key: string, a: seq<T>, x: T)
    requires Callable(calls) && forall i :: 0 <= i < |calls| && calls[i].key == key ==> calls[i].n == |a|
    requires Distinct(a) && x in a
    ensures var m := CallsFor(calls, key);
            m / |a| <= Answers(c, calls, key, a, x) <= m / |a| + if m % |a| == 0 then 0 else 1
  {
    var v :| 0 <= v < |a| && a[v] == x;
    AnswersAreTurns(c, calls, key, a, v);
    RoundRobinFair(c, calls, key, |a|, v);
  }
}
