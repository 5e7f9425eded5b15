/**
  Rotating refresh tokens. A login issues a token; a refresh redeems one and links it to its
  replacement. Token ids are numbered in insertion order; handlers run to completion one after
  the other, and generated hashes are fresh.
*/
module RefreshTokens {
  import opened Basics

  datatype Token = Token(user: nat, hash: string, expiresAt: int, revoked: bool, replacedBy: Option<nat>)

  type Tokens = seq<Token>

  const TTL: int := 30 * 24 * 3600

  datatype Request =
    | Issue(user: nat, hash: string, now: int)               // signup or login
    | Refresh(presented: string, minted: string, now: int)   // hashes of the presented and the new token

  predicate Known(ts: Tokens, hash: string) { exists i :: 0 <= i < |ts| && ts[i].hash == hash }

  /** GetByHash: the position of the token, or the number of tokens. */
  function Find(ts: Tokens, hash: string): (k: nat)
    ensures k <= |ts|
    ensures k < |ts| ==> ts[k].hash == hash
    ensures forall i :: 0 <= i < k ==> ts[i].hash != hash
  {
    if ts == [] then 0 else if ts[0].hash == hash then 0 else 1 + Find(ts[1..], hash)
  }

  /** A known token that is neither revoked nor expired. */
  predicate Redeemable(ts: Tokens, hash: string, now: int) {
    var k := Find(ts, hash);
    k < |ts| && !ts[k].revoked && now <= ts[k].expiresAt
  }

  predicate Enabled(ts: Tokens, req: Request) {
    match req
    case Issue(_, hash, _) => !Known(ts, hash)
    case Refresh(_, minted, _) => !Known(ts, minted)
  }

  /** handleRefresh: create the replacement, then mark the presented token as replaced by it. */
  function Rotated(ts: Tokens, k: nat, minted: string, now: int): Tokens
    requires k < |ts|
  {
    ts[k := ts[k].(revoked := true, replacedBy := Some(|ts|))] + [Token(ts[k].user, minted, now + TTL, false, None)]
  }

  function Apply(ts: Tokens, req: Request): Tokens
    requires Enabled(ts, req)
  {
    match req
    case Issue(user, hash, now) => ts + [Token(user, hash, now + TTL, false, None)]
    case Refresh(presented, minted, now) =>
      if Redeemable(ts, presented, now) then Rotated(ts, Find(ts, presented), minted, now) else ts
  }

  // -- chains -------------------------------------------------------------------------

  /**
    Hashes are distinct; a token is revoked exactly when it has a replacement; replacements are later
    tokens of the same user, and no two tokens share one. So replaced_by links form disjoint,
    acyclic chains.
  */
  ghost predicate Chained(ts: Tokens) {
    && (forall i, j :: 0 <= i < j < |ts| ==> ts[i].hash != ts[j].hash)
    && (forall i :: 0 <= i < |ts| ==> (ts[i].revoked <==> ts[i].replacedBy.Some?))
    && (forall i :: 0 <= i < |ts| && ts[i].replacedBy.Some? ==>
          i < ts[i].replacedBy.value < |ts| && ts[ts[i].replacedBy.value].user == ts[i].user)
    && (forall i, j :: 0 <= i < j < |ts| && ts[i].replacedBy.Some? ==> ts[i].replacedBy != ts[j].replacedBy)
  }

  lemma RotateKeepsChained(ts: Tokens, k: nat, minted: string, now: int)
    requires Chained(ts) && k < |ts| && !ts[k].revoked && !Known(ts, minted)
    ensures Chained(Rotated(ts, k, minted, now))
  {
  }

  lemma StepKeepsChained(ts: Tokens, req: Request)
    requires Chained(ts) && Enabled(ts, req)
    ensures Chained(Apply(ts, req))
  {
    if req.Refresh? && Redeemable(ts, req.presented, req.now) {
      RotateKeepsChained(ts, Find(ts, req.presented), req.minted, req.now);
    }
  }

  ghost predicate IsRun(states: seq<Tokens>, reqs: seq<Request>) {
    && |states| == |reqs| + 1
    && forall i :: 0 <= i < |reqs| ==> Enabled(states[i], reqs[i]) && states[i + 1] == Apply(states[i], reqs[i])
  }

  lemma {:induction false} RunChained(states: seq<Tokens>, reqs: seq<Request>, i: nat)
    requires IsRun(states, reqs) && states[0] == [] && i < |states|
    ensures Chained(states[i])
  {
    if i > 0 {
      RunChained(states, reqs, i - 1);
      StepKeepsChained(states[i - 1], reqs[i - 1]);
    }
  }

  /** The token at the end of a token's chain. */
  ghost function End(ts: Tokens, i: nat): (e: nat)
    requires Chained(ts) && i < |ts|
    ensures i <= e < |ts| && !ts[e].revoked && ts[e].user == ts[i].user
    decreases |ts| - i
  {
    if ts[i].replacedBy.None? then i else End(ts, ts[i].replacedBy.value)
  }

  /** Tokens nothing was replaced by: the ones a login issued. */
  ghost predicate IsLogin(ts: Tokens, i: nat) {
    i < |ts| && forall j :: 0 <= j < |ts| ==> ts[j].replacedBy != Some(i)
  }

  /** The request at p added token i. */
  ghost predicate AddedBy(states: seq<Tokens>, p: nat, i: nat)
    requires p + 1 < |states|
  {
    |states[p]| == i < |states[p + 1]|
  }

  /** One request: older tokens stay logins or not, and the new one is a login iff it was issued. */
  ghost predicate LoginsFollow(ts: Tokens, req: Request, after: Tokens, i: nat) {
    && |ts| <= |after| <= |ts| + 1
    && (i < |after| ==> (IsLogin(after, i) <==> if i < |ts| then IsLogin(ts, i) else req.Issue?))
  }

  lemma StepLogins(ts: Tokens, req: Request, after: Tokens, i: nat)
    requires Chained(ts) && Enabled(ts, req) && after == Apply(ts, req)
    ensures LoginsFollow(ts, req, after, i)
  {
    if req.Refresh? && Redeemable(ts, req.presented, req.now) {
      var k := Find(ts, req.presented);
      assert after[k].replacedBy == Some(|ts|);
      assert forall j :: 0 <= j < |ts| && j != k ==> after[j] == ts[j];
      assert ts[k].replacedBy.None?;
    } else {
      assert forall j :: 0 <= j < |ts| ==> after[j] == ts[j];
    }
  }

  lemma {:induction false} LoginsSoFar(states: seq<Tokens>, reqs: seq<Request>, n: nat, i: nat) returns (p: nat)
    requires |states| == |reqs| + 1 && states[0] == [] && n < |states| && i < |states[n]|
    requires forall j :: 0 <= j < n ==> LoginsFollow(states[j], reqs[j], states[j + 1], i)
    ensures p < n && AddedBy(states, p, i)
    ensures IsLogin(states[n], i) <==> reqs[p].Issue?
  {
    assert n > 0 && LoginsFollow(states[n - 1], reqs[n - 1], states[n - 1 + 1], i);
    if i < |states[n - 1]| {
      p := LoginsSoFar(states, reqs, n - 1, i);
    } else {
      p := n - 1;
    }
  }

  /** Logins are the tokens that an issue request added, and only those: the others came from refreshes. */
  lemma LoginsAreIssued(states: seq<Tokens>, reqs: seq<Request>, n: nat, i: nat) returns (p: nat)
    requires IsRun(states, reqs) && states[0] == [] && n < |states| && i < |states[n]|
    ensures p < n && AddedBy(states, p, i)
    ensures IsLogin(states[n], i) <==> reqs[p].Issue?
  {
    forall j | 0 <= j < n ensures LoginsFollow(states[j], reqs[j], states[j + 1], i) {
      RunChained(states, reqs, j);
      StepLogins(states[j], reqs[j], states[j + 1], i);
    }
    p := LoginsSoFar(states, reqs, n, i);
  }

  ghost function TimeOf(req: Request): int { req.now }

  ghost function HashOf(req: Request): string { if req.Issue? then req.hash else req.minted }

  /** The token's hash and expiry are those of the request that added it. */
  ghost predicate MintedBy(token: Token, req: Request) {
    token.hash == HashOf(req) && token.expiresAt == TimeOf(req) + TTL && (req.Issue? ==> token.user == req.user)
  }

  lemma StepMints(ts: Tokens, req: Request, after: Tokens)
    requires Enabled(ts, req) && after == Apply(ts, req)
    ensures && |ts| <= |after| <= |ts| + 1
            && (forall i :: 0 <= i < |ts| ==>
                  after[i].hash == ts[i].hash && after[i].expiresAt == ts[i].expiresAt && after[i].user == ts[i].user)
            && (|ts| < |after| ==> MintedBy(after[|ts|], req))
  {
  }

  /** In every state of every run, each token still carries what the request that added it gave it. */
  lemma {:induction false} TokensAsMinted(states: seq<Tokens>, reqs: seq<Request>, n: nat, i: nat) returns (p: nat)
    requires IsRun(states, reqs) && n < |states| && states[0] == [] && i < |states[n]|
    ensures p < n && AddedBy(states, p, i) && MintedBy(states[n][i], reqs[p])
  {
    StepMints(states[n - 1], reqs[n - 1], states[n]);
    if i < |states[n - 1]| {
      p := TokensAsMinted(states, reqs, n - 1, i);
    } else {
      p := n - 1;
    }
  }

  /**
    Expiry, exactly: a token presented in any state of any run is redeemed if and only if it is unrevoked and
    no more than the ttl has passed since the request that added it. A refused presentation changes
    nothing; a redeemed one adds an unrevoked token of the same user and revokes the one presented.
  */
  lemma RedeemedIff(states: seq<Tokens>, reqs: seq<Request>, n: nat, i: nat, minted: string, now: int) returns (p: nat)
    requires IsRun(states, reqs) && states[0] == [] && n < |states| && i < |states[n]| && !Known(states[n], minted)
    ensures p < n && AddedBy(states, p, i) && MintedBy(states[n][i], reqs[p])
    ensures var ts, after := states[n], Apply(states[n], Refresh(states[n][i].hash, minted, now));
            if !ts[i].revoked && now <= TimeOf(reqs[p]) + TTL then
              && |after| == |ts| + 1 && after[|ts|] == Token(ts[i].user, minted, now + TTL, false, None)
              && after[i].revoked && after[i].replacedBy == Some(|ts|)
              && forall j :: 0 <= j < |ts| && j != i ==> after[j] == ts[j]
            else after == ts
  {
    p := TokensAsMinted(states, reqs, n, i);
    RunChained(states, reqs, n);
    SameFind(states[n], states[n][i].hash, i);
  }

  /** The login a token descends from. */
  ghost function Origin(ts: Tokens, i: nat): (o: nat)
    requires Chained(ts) && i < |ts|
    ensures o <= i && IsLogin(ts, o)
    decreases i
  {
    if j :| 0 <= j < |ts| && ts[j].replacedBy == Some(i) then Origin(ts, j) else i
  }

  lemma {:induction false} OriginSharesEnd(ts: Tokens, i: nat)
    requires Chained(ts) && i < |ts|
    ensures End(ts, Origin(ts, i)) == End(ts, i)
    decreases i
  {
    if j :| 0 <= j < |ts| && ts[j].replacedBy == Some(i) {
      OriginStep(ts, i, j);
      OriginSharesEnd(ts, j);
    }
  }

  lemma OriginStep(ts: Tokens, i: nat, j: nat)
    requires Chained(ts) && i < |ts| && j < |ts| && ts[j].replacedBy == Some(i)
    ensures Origin(ts, i) == Origin(ts, j)
  {
    forall x | 0 <= x < |ts| && ts[x].replacedBy == Some(i) ensures x == j {
    }
  }

  lemma {:induction false} EndSharesOrigin(ts: Tokens, i: nat)
    requires Chained(ts) && i < |ts|
    ensures Origin(ts, End(ts, i)) == Origin(ts, i)
    decreases |ts| - i
  {
    if ts[i].replacedBy.Some? {
      var next := ts[i].replacedBy.value;
      OriginStep(ts, next, i);
      EndSharesOrigin(ts, next);
    }
  }

  /**
    One chain per login: in every reachable state, the unrevoked tokens that descend from a login are
    exactly one, the end of its chain; every token of the chain leads to it and belongs to one user.
  */
  lemma OneLiveTokenPerLogin(states: seq<Tokens>, reqs: seq<Request>, n: nat, login: nat)
    requires IsRun(states, reqs) && states[0] == [] && n < |states| && IsLogin(states[n], login)
    ensures Chained(states[n])
    ensures var ts := states[n];
            && (forall u: nat :: u < |ts| && Origin(ts, u) == login ==> End(ts, u) == End(ts, login) && ts[u].user == ts[login].user)
            && (forall u: nat :: u < |ts| ==> (Origin(ts, u) == login && !ts[u].revoked <==> u == End(ts, login)))
  {
    RunChained(states, reqs, n);
    var ts := states[n];
    forall u: nat | u < |ts|
      ensures Origin(ts, u) == login ==> End(ts, u) == End(ts, login) && ts[u].user == ts[login].user
      ensures Origin(ts, u) == login && !ts[u].revoked <==> u == End(ts, login)
    {
      OriginSharesEnd(ts, u);
      EndSharesOrigin(ts, login);
      assert Origin(ts, login) == login;
    }
  }

  // -- redeemed once, conserved -------------------------------------------------------

  ghost predicate Spent(ts: Tokens, hash: string) { Find(ts, hash) < |ts| && ts[Find(ts, hash)].revoked }

  lemma SameFind(ts: Tokens, hash: string, k: nat)
    requires Chained(ts) && k < |ts| && ts[k].hash == hash
    ensures Find(ts, hash) == k
  {
  }

  lemma StepKeepsSpent(ts: Tokens, req: Request, hash: string)
    requires Chained(ts) && Enabled(ts, req)
    requires Spent(ts, hash) || (req.Refresh? && req.presented == hash && Redeemable(ts, hash, req.now))
    ensures Spent(Apply(ts, req), hash)
  {
    StepKeepsChained(ts, req);
    SameFind(Apply(ts, req), hash, Find(ts, hash));
  }

  /** Each token is redeemed at most once: a second presentation of it is refused, at any later time. */
  lemma {:induction false} RedeemedOnce(states: seq<Tokens>, reqs: seq<Request>, i: nat, j: nat)
    requires IsRun(states, reqs) && states[0] == [] && i < j < |reqs|
    requires reqs[i].Refresh? && Redeemable(states[i], reqs[i].presented, reqs[i].now)
    requires reqs[j].Refresh? && reqs[j].presented == reqs[i].presented
    ensures !Redeemable(states[j], reqs[j].presented, reqs[j].now) && states[j + 1] == states[j]
  {
    var hash := reqs[i].presented;
    RunChained(states, reqs, i);
    StepKeepsSpent(states[i], reqs[i], hash);
    var p := i + 1;
    while p < j
      invariant i < p <= j && Spent(states[p], hash)
    {
      RunChained(states, reqs, p);
      StepKeepsSpent(states[p], reqs[p], hash);
      p := p + 1;
    }
  }

  ghost function Live(ts: Tokens): set<nat> { set i | 0 <= i < |ts| && !ts[i].revoked }

  ghost function Issues(reqs: seq<Request>): nat {
    if reqs == [] then 0 else Issues(reqs[..|reqs| - 1]) + if reqs[|reqs| - 1].Issue? then 1 else 0
  }

  lemma RotateLive(ts: Tokens, k: nat, minted: string, now: int)
    requires k < |ts| && !ts[k].revoked
    ensures |Live(Rotated(ts, k, minted, now))| == |Live(ts)|
  {
    assert Live(Rotated(ts, k, minted, now)) == (Live(ts) - {k}) + {|ts|};
    assert k in Live(ts) && |ts| !in Live(ts);
  }

  lemma StepLive(ts: Tokens, req: Request)
    requires Enabled(ts, req)
    ensures |Live(Apply(ts, req))| == |Live(ts)| + if req.Issue? then 1 else 0
  {
    if req.Issue? {
      assert Live(Apply(ts, req)) == Live(ts) + {|ts|};
    } else if Redeemable(ts, req.presented, req.now) {
      RotateLive(ts, Find(ts, req.presented), req.minted, req.now);
    }
  }

  /** A refresh conserves the number of unrevoked tokens: there are always as many as there were logins. */
  lemma {:induction false} LiveTokensConserved(states: seq<Tokens>, reqs: seq<Request>, n: nat)
    requires IsRun(states, reqs) && states[0] == [] && n <= |reqs|
    ensures |Live(states[n])| == Issues(reqs[..n])
  {
    if n == 0 {
      assert Live(states[0]) == {};
    } else {
      LiveTokensConserved(states, reqs, n - 1);
      StepLive(states[n - 1], reqs[n - 1]);
      assert reqs[..n][..n - 1] == reqs[..n - 1];
    }
  }

  // -- the handler as it runs ---------------------------------------------------------

  class TokenStore {
    var tokens: Tokens

    method GetByHash(hash: string) returns (k: nat)
      ensures k == Find(tokens, hash)
    {
      k := 0;
      while k < |tokens| && tokens[k].hash != hash
        invariant k <= |tokens|
        invariant forall i :: 0 <= i < k ==> tokens[i].hash != hash
      {
        k := k + 1;
      }
    }

    /** handleRefresh: refuse an unknown, revoked or expired token; otherwise create, then rotate. */
    method HandleRefresh(presented: string, minted: string, now: int) returns (ok: bool)
      requires !Known(tokens, minted)
      modifies this
      ensures ok <==> Redeemable(old(tokens), presented, now)
      ensures tokens == Apply(old(tokens), Refresh(presented, minted, now))
    {
      var k := GetByHash(presented);
      if k == |tokens| {
        return false;
      }
      if tokens[k].revoked || now > tokens[k].expiresAt {
        return false;
      }
      var newId := |tokens|;
      tokens := tokens + [Token(tokens[k].user, minted, now + TTL, false, None)];
      tokens := tokens[k := tokens[k].(revoked := true, replacedBy := Some(newId))];
      return true;
    }
  }
}
