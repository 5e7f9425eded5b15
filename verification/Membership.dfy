/**
  Organization membership under the last-owner guard: the signup, invite, change-role, remove and
  delete-organization transactions, run one after the other.
*/
module Membership {
  import opened Basics

  datatype Role = Owner | Admin | Developer | Viewer

  datatype Member = Member(org: nat, user: nat, role: Role)

  datatype State = State(users: set<nat>, orgs: set<nat>, members: seq<Member>)

  datatype Outcome = Done | NotFound | Forbidden | Conflict | LastOwner

  datatype Request =
    | Signup(user: nat, org: nat)
    | Invite(actor: nat, org: nat, target: nat, role: Role)
    | ChangeRole(actor: nat, org: nat, target: nat, role: Role)
    | Remove(actor: nat, org: nat, target: nat)
    | DeleteOrg(actor: nat, org: nat)

  /** The row of a user in an organization, or the length of the table. */
  function Find(ms: seq<Member>, org: nat, user: nat): (k: nat)
    ensures k <= |ms|
    ensures k < |ms| ==> ms[k].org == org && ms[k].user == user
    ensures forall i :: 0 <= i < k ==> !(ms[i].org == org && ms[i].user == user)
  {
    if ms == [] then 0 else if ms[0].org == org && ms[0].user == user then 0 else 1 + Find(ms[1..], org, user)
  }

  /** CountOwners, as the set of rows it counts. */
  function Owners(ms: seq<Member>, org: nat): set<nat> {
    set i | 0 <= i < |ms| && ms[i].org == org && ms[i].role.Owner?
  }

  function InOtherOrgs(ms: seq<Member>, org: nat): seq<Member> {
    if ms == [] then []
    else
      var found, last := InOtherOrgs(ms[..|ms| - 1], org), ms[|ms| - 1];
      if last.org == org then found else found + [last]
  }

  /** requirePermission for the member routes: owners and admins; deleting the organization: owners. */
  function Permission(s: State, actor: nat, org: nat, ownerOnly: bool): Outcome {
    var k := Find(s.members, org, actor);
    if k == |s.members| then NotFound
    else if s.members[k].role.Owner? || (s.members[k].role.Admin? && !ownerOnly) then Done
    else Forbidden
  }

  /** The guard: the target is an owner, and the only one. */
  predicate OnlyOwner(s: State, k: nat)
    requires k < |s.members|
  {
    s.members[k].role.Owner? && |Owners(s.members, s.members[k].org)| <= 1
  }

  /** Each transaction with its outcome; a refused one changes nothing. */
  function Apply(s: State, req: Request): (State, Outcome) {
    match req
    case Signup(u, o) =>
      if u in s.users || o in s.orgs then (s, Conflict)
      else (State(s.users + {u}, s.orgs + {o}, s.members + [Member(o, u, Owner)]), Done)
    case Invite(actor, o, u, role) =>
      var p := Permission(s, actor, o, false);
      if !p.Done? then (s, p)
      else if u !in s.users then (s, NotFound)
      else if Find(s.members, o, u) < |s.members| then (s, Conflict)
      else (s.(members := s.members + [Member(o, u, role)]), Done)
    case ChangeRole(actor, o, u, role) =>
      var p, k := Permission(s, actor, o, false), Find(s.members, o, u);
      if !p.Done? then (s, p)
      else if k == |s.members| then (s, NotFound)
      else if !role.Owner? && OnlyOwner(s, k) then (s, LastOwner)
      else (s.(members := s.members[k := s.members[k].(role := role)]), Done)
    case Remove(actor, o, u) =>
      var p, k := Permission(s, actor, o, false), Find(s.members, o, u);
      if !p.Done? then (s, p)
      else if k == |s.members| then (s, NotFound)
      else if OnlyOwner(s, k) then (s, LastOwner)
      else (s.(members := Without(s.members, k)), Done)
    case DeleteOrg(actor, o) =>
      var p := Permission(s, actor, o, true);
      if !p.Done? then (s, p)
      else (s.(orgs := s.orgs - {o}, members := InOtherOrgs(s.members, o)), Done)
  }

  // -- the invariant ------------------------------------------------------------------

  ghost predicate OneRowEach(ms: seq<Member>) {
    forall i, j :: 0 <= i < j < |ms| ==> !(ms[i].org == ms[j].org && ms[i].user == ms[j].user)
  }

  ghost predicate HasOwner(ms: seq<Member>, org: nat) {
    exists i :: 0 <= i < |ms| && ms[i].org == org && ms[i].role.Owner?
  }

  /** At most one membership per user and organization, and an owner in every organization. */
  ghost predicate Inv(s: State) {
    && OneRowEach(s.members)
    && (forall i :: 0 <= i < |s.members| ==> s.members[i].org in s.orgs)
    && (forall o :: o in s.orgs ==> HasOwner(s.members, o))
  }

  /** If row k is not the only owner, some other row of its organization is an owner. */
  lemma AnotherOwner(s: State, k: nat)
    requires k < |s.members| && HasOwner(s.members, s.members[k].org) && !OnlyOwner(s, k)
    ensures exists i :: 0 <= i < |s.members| && i != k && s.members[i].org == s.members[k].org && s.members[i].role.Owner?
  {
    var owners := Owners(s.members, s.members[k].org);
    if s.members[k].role.Owner? {
      if owners <= {k} {
        SubsetSize(owners, {k});
      }
      var i :| i in owners && i != k;
    }
  }

  lemma OwnerSurvivesChange(s: State, k: nat, role: Role, o: nat)
    requires Inv(s) && k < |s.members| && o in s.orgs && (role.Owner? || !OnlyOwner(s, k))
    ensures HasOwner(s.members[k := s.members[k].(role := role)], o)
  {
    var t := s.members[k := s.members[k].(role := role)];
    if o == s.members[k].org && !role.Owner? {
      AnotherOwner(s, k);
      var i :| 0 <= i < |s.members| && i != k && s.members[i].org == o && s.members[i].role.Owner?;
      assert t[i] == s.members[i];
    } else if o == s.members[k].org {
      assert t[k].org == o;
    } else {
      var i :| 0 <= i < |s.members| && s.members[i].org == o && s.members[i].role.Owner?;
      assert t[i] == s.members[i];
    }
  }

  lemma OwnerSurvivesRemoval(s: State, k: nat, o: nat)
    requires Inv(s) && k < |s.members| && o in s.orgs && !OnlyOwner(s, k)
    ensures HasOwner(Without(s.members, k), o)
  {
    var i: int;
    if o == s.members[k].org {
      AnotherOwner(s, k);
      i :| 0 <= i < |s.members| && i != k && s.members[i].org == o && s.members[i].role.Owner?;
    } else {
      i :| 0 <= i < |s.members| && s.members[i].org == o && s.members[i].role.Owner?;
    }
    var j := if i < k then i else i - 1;
    assert Without(s.members, k)[j] == s.members[i];
  }

  lemma {:induction false} OtherOrgsRows(ms: seq<Member>, org: nat)
    requires OneRowEach(ms)
    ensures OneRowEach(InOtherOrgs(ms, org))
    ensures forall m :: m in InOtherOrgs(ms, org) <==> m in ms && m.org != org
  {
    if ms != [] {
      OtherOrgsRows(ms[..|ms| - 1], org);
      assert ms == ms[..|ms| - 1] + [ms[|ms| - 1]];
    }
  }

  lemma DeleteKeepsInv(s: State, o: nat)
    requires Inv(s)
    ensures Inv(s.(orgs := s.orgs - {o}, members := InOtherOrgs(s.members, o)))
  {
    var rest := InOtherOrgs(s.members, o);
    OtherOrgsRows(s.members, o);
    forall i | 0 <= i < |rest| ensures rest[i].org in s.orgs - {o} {
      assert rest[i] in rest;
      assert rest[i] in s.members;
    }
    forall x | x in s.orgs - {o} ensures HasOwner(rest, x) {
      var i :| 0 <= i < |s.members| && s.members[i].org == x && s.members[i].role.Owner?;
      assert s.members[i] in rest;
      var j :| 0 <= j < |rest| && rest[j] == s.members[i];
    }
  }

  lemma AppendKeepsOwners(ms: seq<Member>, m: Member, o: nat)
    requires HasOwner(ms, o) || (m.org == o && m.role.Owner?)
    ensures HasOwner(ms + [m], o)
  {
    if HasOwner(ms, o) {
      var i :| 0 <= i < |ms| && ms[i].org == o && ms[i].role.Owner?;
      assert (ms + [m])[i] == ms[i];
    } else {
      assert (ms + [m])[|ms|] == m;
    }
  }

  lemma AddKeepsInv(s: State, m: Member, users: set<nat>, orgs: set<nat>)
    requires Inv(s) && Find(s.members, m.org, m.user) == |s.members|
    requires orgs == s.orgs || (orgs == s.orgs + {m.org} && m.role.Owner?)
    requires m.org in orgs
    ensures Inv(State(users, orgs, s.members + [m]))
  {
    forall x | x in orgs ensures HasOwner(s.members + [m], x) {
      AppendKeepsOwners(s.members, m, x);
    }
  }

  lemma ChangeKeepsInv(s: State, k: nat, role: Role)
    requires Inv(s) && k < |s.members| && (role.Owner? || !OnlyOwner(s, k))
    ensures Inv(s.(members := s.members[k := s.members[k].(role := role)]))
  {
    forall x | x in s.orgs ensures HasOwner(s.members[k := s.members[k].(role := role)], x) {
      OwnerSurvivesChange(s, k, role, x);
    }
  }

  lemma RemoveKeepsInv(s: State, k: nat)
    requires Inv(s) && k < |s.members| && !OnlyOwner(s, k)
    ensures Inv(s.(members := Without(s.members, k)))
  {
    forall x | x in s.orgs ensures HasOwner(Without(s.members, k), x) {
      OwnerSurvivesRemoval(s, k, x);
    }
  }

  lemma StepKeepsInv(s: State, req: Request)
    requires Inv(s)
    ensures Inv(Apply(s, req).0)
  {
    if Apply(s, req).1.Done? {
      match req
      case Signup(u, o) => AddKeepsInv(s, Member(o, u, Owner), s.users + {u}, s.orgs + {o});
      case Invite(actor, o, u, role) =>
        assert s.members[Find(s.members, o, actor)].org == o;
        AddKeepsInv(s, Member(o, u, role), s.users, s.orgs);
      case ChangeRole(_, o, u, role) => ChangeKeepsInv(s, Find(s.members, o, u), role);
      case Remove(_, o, u) => RemoveKeepsInv(s, Find(s.members, o, u));
      case DeleteOrg(_, o) => DeleteKeepsInv(s, o);
    }
  }

  ghost predicate IsRun(states: seq<State>, reqs: seq<Request>) {
    |states| == |reqs| + 1 && forall i :: 0 <= i < |reqs| ==> states[i + 1] == Apply(states[i], reqs[i]).0
  }

  /**
    Last owner: over every serial run of signups, invites, role changes, removals and organization
    deletions, every existing organization keeps an owner and no user has two rows in one.
  */
  lemma {:induction false} OwnersRemain(states: seq<State>, reqs: seq<Request>, i: nat)
    requires IsRun(states, reqs) && states[0] == State({}, {}, []) && i < |states|
    ensures Inv(states[i])
  {
    if i > 0 {
      OwnersRemain(states, reqs, i - 1);
      StepKeepsInv(states[i - 1], reqs[i - 1]);
    }
  }

  lemma OnlyOwnerIsAlone(s: State, k: nat, i: nat)
    requires k < |s.members| && OnlyOwner(s, k) && i < |s.members| && i != k && s.members[i].org == s.members[k].org
    ensures !s.members[i].role.Owner?
  {
    var owners := Owners(s.members, s.members[k].org);
    if s.members[i].role.Owner? {
      SubsetSize({k, i}, owners);
    }
  }

  /**
    The guard refuses no more than it must: a permitted removal or demotion of an existing member is
    refused exactly when carrying it out would leave the organization without an owner.
  */
  lemma GuardIsExact(s: State, actor: nat, org: nat, target: nat, role: Role)
    requires Inv(s) && Permission(s, actor, org, false).Done? && Find(s.members, org, target) < |s.members|
    ensures var k := Find(s.members, org, target);
            && (Apply(s, Remove(actor, org, target)).1.LastOwner? <==> !HasOwner(Without(s.members, k), org))
            && (Apply(s, ChangeRole(actor, org, target, role)).1.LastOwner? <==>
                  !HasOwner(s.members[k := s.members[k].(role := role)], org))
  {
    var k := Find(s.members, org, target);
    if OnlyOwner(s, k) {
      forall i | 0 <= i < |s.members| && i != k && s.members[i].org == org ensures !s.members[i].role.Owner? {
        OnlyOwnerIsAlone(s, k, i);
      }
    } else {
      OwnerSurvivesRemoval(s, k, org);
    }
    if role.Owner? || !OnlyOwner(s, k) {
      OwnerSurvivesChange(s, k, role, org);
    }
  }

  /** Whoever changes an organization is a member of it, an owner or an admin, and deleting it takes an owner. */
  lemma OnlyAdminsChange(s: State, req: Request)
    requires !req.Signup? && Apply(s, req).0 != s
    ensures exists i :: 0 <= i < |s.members| && s.members[i].org == req.org && s.members[i].user == req.actor &&
                        (s.members[i].role.Owner? || (s.members[i].role.Admin? && !req.DeleteOrg?))
  {
    var k := Find(s.members, req.org, req.actor);
    assert k < |s.members|;
    assert s.members[k].org == req.org;
  }

  // -- what an accepted request does --------------------------------------------------

  /** The user's role in the organization, if any. */
  ghost function RoleOf(s: State, org: nat, user: nat): Option<Role> {
    var k := Find(s.members, org, user);
    if k < |s.members| then Some(s.members[k].role) else None
  }

  ghost predicate IsMember(s: State, org: nat, user: nat, role: Role) { Member(org, user, role) in s.members }

  lemma RoleOfMember(s: State, org: nat, user: nat, role: Role)
    requires OneRowEach(s.members)
    ensures RoleOf(s, org, user) == Some(role) <==> IsMember(s, org, user, role)
  {
    if IsMember(s, org, user, role) {
      var i :| 0 <= i < |s.members| && s.members[i] == Member(org, user, role);
      assert Find(s.members, org, user) == i;
    }
  }

  /** Owners and admins may invite, change and remove members; nobody else may. */
  ghost predicate MayManage(s: State, org: nat, actor: nat) {
    IsMember(s, org, actor, Owner) || IsMember(s, org, actor, Admin)
  }

  lemma PermissionIff(s: State, actor: nat, org: nat)
    requires OneRowEach(s.members)
    ensures Permission(s, actor, org, false).Done? <==> MayManage(s, org, actor)
    ensures Permission(s, actor, org, true).Done? <==> IsMember(s, org, actor, Owner)
  {
    RoleOfMember(s, org, actor, Owner);
    RoleOfMember(s, org, actor, Admin);
  }

  lemma RolesChanged(s: State, k: nat, role: Role, o: nat, u: nat)
    requires OneRowEach(s.members) && k < |s.members|
    ensures var t := s.(members := s.members[k := s.members[k].(role := role)]);
            RoleOf(t, o, u) == if o == s.members[k].org && u == s.members[k].user then Some(role) else RoleOf(s, o, u)
  {
    var t := s.(members := s.members[k := s.members[k].(role := role)]);
    var i := Find(s.members, o, u);
    assert forall j :: 0 <= j < |s.members| ==> t.members[j].org == s.members[j].org && t.members[j].user == s.members[j].user;
    assert Find(t.members, o, u) == i;
  }

  lemma RolesWithout(s: State, k: nat, o: nat, u: nat)
    requires OneRowEach(s.members) && k < |s.members|
    ensures var t := s.(members := Without(s.members, k));
            RoleOf(t, o, u) == if o == s.members[k].org && u == s.members[k].user then None else RoleOf(s, o, u)
  {
    var t := s.(members := Without(s.members, k));
    var i, j := Find(s.members, o, u), Find(t.members, o, u);
    if j < |t.members| {
      var x := if j < k then j else j + 1;
      assert t.members[j] == s.members[x];
    }
    if i < |s.members| && i != k {
      var y := if i < k then i else i - 1;
      assert t.members[y] == s.members[i];
    }
  }

  lemma RolesWith(s: State, m: Member, users: set<nat>, orgs: set<nat>, o: nat, u: nat)
    requires Find(s.members, m.org, m.user) == |s.members|
    ensures var t := State(users, orgs, s.members + [m]);
            RoleOf(t, o, u) == if o == m.org && u == m.user then Some(m.role) else RoleOf(s, o, u)
  {
    var t := State(users, orgs, s.members + [m]);
    assert forall j :: 0 <= j < |s.members| ==> t.members[j] == s.members[j];
    assert t.members[|s.members|] == m;
    var i, j := Find(s.members, o, u), Find(t.members, o, u);
  }

  lemma RolesInOtherOrgs(s: State, gone: nat, o: nat, u: nat)
    requires OneRowEach(s.members)
    ensures var t := s.(orgs := s.orgs - {gone}, members := InOtherOrgs(s.members, gone));
            RoleOf(t, o, u) == if o == gone then None else RoleOf(s, o, u)
  {
    var t := s.(orgs := s.orgs - {gone}, members := InOtherOrgs(s.members, gone));
    OtherOrgsRows(s.members, gone);
    var i, j := Find(s.members, o, u), Find(t.members, o, u);
    if j < |t.members| {
      assert t.members[j] in t.members;
      RoleOfMember(s, o, u, t.members[j].role);
    }
  }

  /** The role each user has after an accepted request. */
  ghost function RoleAfter(s: State, req: Request, o: nat, u: nat): Option<Role> {
    match req
    case Signup(user, org) => if o == org && u == user then Some(Owner) else RoleOf(s, o, u)
    case Invite(_, org, target, role) => if o == org && u == target then Some(role) else RoleOf(s, o, u)
    case ChangeRole(_, org, target, role) => if o == org && u == target then Some(role) else RoleOf(s, o, u)
    case Remove(_, org, target) => if o == org && u == target then None else RoleOf(s, o, u)
    case DeleteOrg(_, org) => if o == org then None else RoleOf(s, o, u)
  }

  /** When a request is accepted, in terms of who is a member with which role. */
  ghost predicate Acceptable(s: State, req: Request) {
    match req
    case Signup(user, org) => user !in s.users && org !in s.orgs
    case Invite(actor, org, target, _) => MayManage(s, org, actor) && target in s.users && RoleOf(s, org, target).None?
    case ChangeRole(actor, org, target, role) =>
      MayManage(s, org, actor) && RoleOf(s, org, target).Some? &&
      (role.Owner? || !IsMember(s, org, target, Owner) || exists other :: other != target && IsMember(s, org, other, Owner))
    case Remove(actor, org, target) =>
      MayManage(s, org, actor) && RoleOf(s, org, target).Some? &&
      (!IsMember(s, org, target, Owner) || exists other :: other != target && IsMember(s, org, other, Owner))
    case DeleteOrg(actor, org) => IsMember(s, org, actor, Owner)
  }

  lemma OnlyOwnerIff(s: State, k: nat)
    requires Inv(s) && k < |s.members|
    ensures var org, user := s.members[k].org, s.members[k].user;
            OnlyOwner(s, k) <==>
            IsMember(s, org, user, Owner) && forall other :: other != user ==> !IsMember(s, org, other, Owner)
  {
    var org, user := s.members[k].org, s.members[k].user;
    RoleOfMember(s, org, user, Owner);
    assert Find(s.members, org, user) == k;
    if OnlyOwner(s, k) {
      forall other | other != user ensures !IsMember(s, org, other, Owner) {
        if IsMember(s, org, other, Owner) {
          var i :| 0 <= i < |s.members| && s.members[i] == Member(org, other, Owner);
          OnlyOwnerIsAlone(s, k, i);
        }
      }
    } else if s.members[k].role.Owner? {
      AnotherOwner(s, k);
      var i :| 0 <= i < |s.members| && i != k && s.members[i].org == org && s.members[i].role.Owner?;
      assert s.members[i].user != user && IsMember(s, org, s.members[i].user, Owner);
    }
  }

  lemma DoneIff(s: State, req: Request)
    requires Inv(s)
    ensures Apply(s, req).1.Done? <==> Acceptable(s, req)
    ensures !Apply(s, req).1.Done? ==> Apply(s, req).0 == s
  {
    if !req.Signup? {
      PermissionIff(s, req.actor, req.org);
    }
    if req.ChangeRole? || req.Remove? {
      var k := Find(s.members, req.org, req.target);
      if k < |s.members| {
        OnlyOwnerIff(s, k);
      }
    }
  }

  /**
    Requests, exactly: in any state the transactions can reach, a request is accepted if and only if its
    actor may make it and no organization loses its last owner; then it gives exactly the named member the
    named role, or takes it away, and every other role in every organization stays what it was.
  */
  lemma RequestsExactly(s: State, req: Request, o: nat, u: nat)
    requires Inv(s)
    ensures Apply(s, req).1.Done? <==> Acceptable(s, req)
    ensures RoleOf(Apply(s, req).0, o, u) == if Acceptable(s, req) then RoleAfter(s, req, o, u) else RoleOf(s, o, u)
    ensures o in Apply(s, req).0.orgs <==>
            if Acceptable(s, req) && req.org == o && (req.Signup? || req.DeleteOrg?) then req.Signup? else o in s.orgs
    ensures u in Apply(s, req).0.users <==> u in s.users || (req.Signup? && req.user == u && Acceptable(s, req))
  {
    DoneIff(s, req);
    if Acceptable(s, req) {
      match req
      case Signup(user, org) => RolesWith(s, Member(org, user, Owner), s.users + {user}, s.orgs + {org}, o, u);
      case Invite(_, org, target, role) => RolesWith(s, Member(org, target, role), s.users, s.orgs, o, u);
      case ChangeRole(_, org, target, role) => RolesChanged(s, Find(s.members, org, target), role, o, u);
      case Remove(_, org, target) => RolesWithout(s, Find(s.members, org, target), o, u);
      case DeleteOrg(_, org) => RolesInOtherOrgs(s, org, o, u);
    }
  }

  // -- the transactions as they run ---------------------------------------------------

  class Roster {
    var users: set<nat>
    var orgs: set<nat>
    var members: seq<Member>

    ghost function View(): State
      reads this
    {
      State(users, orgs, members)
    }

    method CountOwners(org: nat) returns (n: nat)
      ensures n == |Owners(members, org)|
    {
      n := 0;
      ghost var seen: set<nat> := {};
      for i := 0 to |members|
        invariant seen == (set j | 0 <= j < i && members[j].org == org && members[j].role.Owner?) && n == |seen|
      {
        if members[i].org == org && members[i].role.Owner? {
          n := n + 1;
          seen := seen + {i};
        }
      }
      assert seen == Owners(members, org);
    }

    method ChangeMemberRole(actor: nat, org: nat, target: nat, role: Role) returns (out: Outcome)
      modifies this`members
      ensures (View(), out) == Apply(old(View()), ChangeRole(actor, org, target, role))
    {
      out := Permission(State(users, orgs, members), actor, org, false);
      if !out.Done? {
        return;
      }
      var k := Find(members, org, target);
      if k == |members| {
        return NotFound;
      }
      if members[k].role.Owner? && !role.Owner? {
        var owners := CountOwners(org);
        if owners <= 1 {
          return LastOwner;
        }
      }
      members := members[k := members[k].(role := role)];
    }

    method RemoveMember(actor: nat, org: nat, target: nat) returns (out: Outcome)
      modifies this`members
      ensures (View(), out) == Apply(old(View()), Remove(actor, org, target))
    {
      out := Permission(State(users, orgs, members), actor, org, false);
      if !out.Done? {
        return;
      }
      var k := Find(members, org, target);
      if k == |members| {
        return NotFound;
      }
      if members[k].role.Owner? {
        var owners := CountOwners(org);
        if owners <= 1 {
          return LastOwner;
        }
      }
      members := members[..k] + members[k + 1..];
    }
  }
}
