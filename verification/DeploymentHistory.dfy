/**
  Deployment revisions, application images and build results over any serial run of the API
  server's transactions: deploys of a pushed image, builds requested from git, and completion
  messages, which may be duplicated or contradict each other.
*/
module DeploymentHistory {
  import opened Basics

  datatype Deployment = Deployment(app: nat, revision: int, image: string, failed: bool)

  datatype BuildStatus = Unfinished | Succeeded | Failed

  datatype Build = Build(app: nat, status: BuildStatus, commit: Option<string>, image: Option<string>, error: Option<string>)

  /** images: each application's current image; the other tables in insertion order. */
  datatype State = State(images: map<nat, string>, deployments: seq<Deployment>, builds: map<nat, Build>)

  /** build.completed. */
  datatype Completed = Completed(build: nat, succeeded: bool, commit: string, image: string, error: string)

  datatype Request =
    | CreateApp(app: nat, image: string)
    | Deploy(app: nat, image: string)      // empty image: redeploy the current one
    | RequestBuild(build: nat, app: nat)
    | FinishBuild(msg: Completed)
    | PublishFailed(k: nat)                // the placement request could not be published
    | DeleteApp(app: nat)                  // deployments and builds go with it

  function Revisions(deps: seq<Deployment>, app: nat): seq<Deployment> {
    if deps == [] then []
    else
      var found, last := Revisions(deps[..|deps| - 1], app), deps[|deps| - 1];
      if last.app == app then found + [last] else found
  }

  /** COALESCE(MAX(revision), 0). */
  function MaxRevision(deps: seq<Deployment>, app: nat): int {
    if deps == [] then 0
    else
      var m, last := MaxRevision(deps[..|deps| - 1], app), deps[|deps| - 1];
      if last.app == app && (last.revision > m || Revisions(deps[..|deps| - 1], app) == []) then last.revision else m
  }

  /** createDeploymentTx: bump the image if it changes, then add the next revision with it. */
  function Created(s: State, app: nat, image: string): State
    requires app in s.images
  {
    var now := if image != "" then image else s.images[app];
    s.(images := s.images[app := now],
       deployments := s.deployments + [Deployment(app, MaxRevision(s.deployments, app) + 1, now, false)])
  }

  function Text(t: string): Option<string> { if t == "" then None else Some(t) }

  /** handleBuildCompleted's transaction: nothing happens if the build or its application is gone. */
  function Finished(s: State, m: Completed): State {
    if m.build !in s.builds then s
    else
      var b := s.builds[m.build];
      if !m.succeeded then
        var error := if m.error == "" then "build failed without a reported reason" else m.error;
        s.(builds := s.builds[m.build := Build(b.app, Failed, None, None, Some(error))])
      else if m.image == "" then
        s.(builds := s.builds[m.build := Build(b.app, Failed, None, None, Some("build reported success without an image reference"))])
      else if b.app !in s.images then s
      else
        Created(s.(builds := s.builds[m.build := Build(b.app, Succeeded, Text(m.commit), Some(m.image), None)]), b.app, m.image)
  }

  function Others(deps: seq<Deployment>, app: nat): seq<Deployment> {
    if deps == [] then []
    else
      var found, last := Others(deps[..|deps| - 1], app), deps[|deps| - 1];
      if last.app == app then found else found + [last]
  }

  predicate Enabled(s: State, req: Request) {
    match req
    case CreateApp(a, _) => a !in s.images && Revisions(s.deployments, a) == []
    case RequestBuild(b, _) => b !in s.builds
    case PublishFailed(k) => k < |s.deployments|
    case _ => true
  }

  function Apply(s: State, req: Request): State
    requires Enabled(s, req)
  {
    match req
    case CreateApp(a, image) => s.(images := s.images[a := image])
    case Deploy(a, image) => if a in s.images then Created(s, a, image) else s
    case RequestBuild(b, a) => if a in s.images then s.(builds := s.builds[b := Build(a, Unfinished, None, None, None)]) else s
    case FinishBuild(m) => Finished(s, m)
    case PublishFailed(k) => s.(deployments := s.deployments[k := s.deployments[k].(failed := true)])
    case DeleteApp(a) =>
      State(s.images - {a}, Others(s.deployments, a), map b | b in s.builds && s.builds[b].app != a :: s.builds[b])
  }

  // -- what every transaction keeps ---------------------------------------------------

  /** Revisions 1..n in order, and the application's image is that of revision n. */
  ghost predicate Orderly(s: State, app: nat) {
    var rs := Revisions(s.deployments, app);
    && (forall k :: 0 <= k < |rs| ==> rs[k].revision == k + 1)
    && (rs != [] && app in s.images ==> s.images[app] == rs[|rs| - 1].image)
  }

  ghost predicate WellReported(b: Build) {
    match b.status
    case Unfinished => b.commit.None? && b.image.None? && b.error.None?
    case Succeeded => b.image.Some? && b.image.value != "" && b.error.None?
    case Failed => b.error.Some? && b.error.value != "" && b.image.None? && b.commit.None?
  }

  ghost predicate Inv(s: State) {
    && (forall a :: Orderly(s, a))
    && (forall b :: b in s.builds ==> WellReported(s.builds[b]))
  }

  lemma {:induction false} MaxIsCount(deps: seq<Deployment>, app: nat)
    requires forall k :: 0 <= k < |Revisions(deps, app)| ==> Revisions(deps, app)[k].revision == k + 1
    ensures MaxRevision(deps, app) == |Revisions(deps, app)|
  {
    if deps != [] {
      var front, last := deps[..|deps| - 1], deps[|deps| - 1];
      if last.app == app {
        var rs := Revisions(front, app);
        assert Revisions(deps, app) == rs + [last];
        assert forall k :: 0 <= k < |rs| ==> (rs + [last])[k] == rs[k];
        assert (rs + [last])[|rs|] == last;
      }
      MaxIsCount(front, app);
    }
  }

  lemma RevisionsAppend(deps: seq<Deployment>, d: Deployment, app: nat)
    ensures Revisions(deps + [d], app) == if d.app == app then Revisions(deps, app) + [d] else Revisions(deps, app)
  {
    assert (deps + [d])[..|deps|] == deps;
  }

  lemma CreatedKeepsOrder(s: State, app: nat, image: string, a: nat)
    requires app in s.images && Orderly(s, app) && Orderly(s, a)
    ensures Orderly(Created(s, app, image), a)
  {
    var t := Created(s, app, image);
    MaxIsCount(s.deployments, app);
    RevisionsAppend(s.deployments, t.deployments[|s.deployments|], a);
  }

  lemma {:induction false} FailKeepsRevisions(deps: seq<Deployment>, k: nat, app: nat)
    requires k < |deps|
    ensures var marked := deps[k := deps[k].(failed := true)];
            && |Revisions(marked, app)| == |Revisions(deps, app)|
            && forall i :: 0 <= i < |Revisions(deps, app)| ==>
                 Revisions(marked, app)[i].revision == Revisions(deps, app)[i].revision &&
                 Revisions(marked, app)[i].image == Revisions(deps, app)[i].image
  {
    var marked := deps[k := deps[k].(failed := true)];
    var n := |deps| - 1;
    if k < n {
      FailKeepsRevisions(deps[..n], k, app);
      assert marked[..n] == deps[..n][k := deps[k].(failed := true)];
    } else {
      assert marked[..n] == deps[..n];
    }
  }

  lemma {:induction false} OthersRevisions(deps: seq<Deployment>, gone: nat, app: nat)
    ensures Revisions(Others(deps, gone), app) == if app == gone then [] else Revisions(deps, app)
  {
    if deps != [] {
      var front, last := deps[..|deps| - 1], deps[|deps| - 1];
      OthersRevisions(front, gone, app);
      if last.app != gone {
        RevisionsAppend(Others(front, gone), last, app);
      }
    }
  }

  lemma StepKeepsOrder(s: State, req: Request, a: nat)
    requires Inv(s) && Enabled(s, req)
    ensures Orderly(Apply(s, req), a)
  {
    assert Orderly(s, a);
    match req
    case Deploy(app, image) => if app in s.images { assert Orderly(s, app); CreatedKeepsOrder(s, app, image, a); }
    case FinishBuild(m) =>
      if m.build in s.builds && m.succeeded && m.image != "" && s.builds[m.build].app in s.images {
        var b := s.builds[m.build];
        var r := s.(builds := s.builds[m.build := Build(b.app, Succeeded, Text(m.commit), Some(m.image), None)]);
        assert Orderly(s, b.app) && Orderly(r, b.app) && Orderly(r, a);
        CreatedKeepsOrder(r, b.app, m.image, a);
      }
    case PublishFailed(k) => FailKeepsRevisions(s.deployments, k, a);
    case DeleteApp(app) => OthersRevisions(s.deployments, app, a);
    case _ =>
  }

  lemma StepKeepsInv(s: State, req: Request)
    requires Inv(s) && Enabled(s, req)
    ensures Inv(Apply(s, req))
  {
    forall a ensures Orderly(Apply(s, req), a) {
      StepKeepsOrder(s, req, a);
    }
  }

  ghost predicate IsRun(states: seq<State>, reqs: seq<Request>) {
    && |states| == |reqs| + 1
    && forall i :: 0 <= i < |reqs| ==> Enabled(states[i], reqs[i]) && states[i + 1] == Apply(states[i], reqs[i])
  }

  /**
    Deployment history: in every serially reachable state, each application's revisions are exactly
    1..n in order, its image is that of revision n whichever path deployed it, and every build is
    unfinished without a result, succeeded with an image, or failed with an error and nothing else.
  */
  lemma {:induction false} HistoryHolds(states: seq<State>, reqs: seq<Request>, i: nat)
    requires IsRun(states, reqs) && states[0] == State(map[], [], map[]) && i < |states|
    ensures Inv(states[i])
  {
    if i > 0 {
      HistoryHolds(states, reqs, i - 1);
      StepKeepsInv(states[i - 1], reqs[i - 1]);
    }
  }

  /** Revisions of one application do not depend on another's deployments. */
  lemma CreatedLeavesOthers(s: State, app: nat, image: string, other: nat)
    requires app in s.images && other != app
    ensures Revisions(Created(s, app, image).deployments, other) == Revisions(s.deployments, other)
  {
    RevisionsAppend(s.deployments, Created(s, app, image).deployments[|s.deployments|], other);
  }

  /**
    A deploy, exactly: the application's next revision with the image asked for, or with its current image if
    none is given, which becomes its image; no other application's image changes.
  */
  lemma CreatedAppends(s: State, app: nat, image: string)
    requires app in s.images && Orderly(s, app)
    ensures var t, before := Created(s, app, image), Revisions(s.deployments, app);
            var asked := if image == "" then s.images[app] else image;
            && Revisions(t.deployments, app) == before + [Deployment(app, |before| + 1, asked, false)]
            && t.images == s.images[app := asked] && t.builds == s.builds
  {
    var asked := if image == "" then s.images[app] else image;
    var d := Deployment(app, MaxRevision(s.deployments, app) + 1, asked, false);
    assert Created(s, app, image) == s.(images := s.images[app := asked], deployments := s.deployments + [d]);
    MaxIsCount(s.deployments, app);
    RevisionsAppend(s.deployments, d, app);
  }

  /**
    A completion that does not deploy: one for an unknown build, or a success whose application is gone,
    changes nothing; a failure, or a success without an image, marks exactly its own build failed,
    with the reported reason if there is one, and touches nothing else.
  */
  lemma FailureRecorded(s: State, m: Completed)
    requires !Deploys(s, m)
    ensures var t := Finished(s, m);
            && t.deployments == s.deployments && t.images == s.images
            && if m.build !in s.builds || (m.succeeded && m.image != "") then t.builds == s.builds
               else
                 && t.builds.Keys == s.builds.Keys
                 && (forall b :: b in s.builds && b != m.build ==> t.builds[b] == s.builds[b])
                 && t.builds[m.build].app == s.builds[m.build].app && t.builds[m.build].status == Failed
                 && t.builds[m.build].commit == None && t.builds[m.build].image == None
                 && t.builds[m.build].error.Some? && t.builds[m.build].error.value != ""
                 && (!m.succeeded && m.error != "" ==> t.builds[m.build].error.value == m.error)
  {
  }

  /** A success message that finds its build and application. */
  predicate Deploys(s: State, m: Completed) {
    m.build in s.builds && m.succeeded && m.image != "" && s.builds[m.build].app in s.images
  }

  /** It adds the next revision with the built image and makes that the application's image. */
  lemma SuccessDeploys(s: State, m: Completed)
    requires Deploys(s, m) && Orderly(s, s.builds[m.build].app)
    ensures var app, t := s.builds[m.build].app, Finished(s, m);
            var before := Revisions(s.deployments, app);
            && Revisions(t.deployments, app) == before + [Deployment(app, |before| + 1, m.image, false)]
            && t.images == s.images[app := m.image]
            && t.builds == s.builds[m.build := Build(app, Succeeded, Text(m.commit), Some(m.image), None)]
            && Orderly(t, app)
  {
    var app := s.builds[m.build].app;
    var r := s.(builds := s.builds[m.build := Build(app, Succeeded, Text(m.commit), Some(m.image), None)]);
    assert Finished(s, m) == Created(r, app, m.image);
    CreatedAppends(r, app, m.image);
    CreatedKeepsOrder(r, app, m.image, app);
  }

  /**
    Completion messages are not deduplicated: handling the same success twice adds two revisions
    with the same image, while the build row and the application's image end as after the first.
  */
  lemma DuplicateCompletionDeploysTwice(s: State, m: Completed)
    requires Deploys(s, m) && Orderly(s, s.builds[m.build].app)
    ensures var app, t, u := s.builds[m.build].app, Finished(s, m), Finished(Finished(s, m), m);
            var before := Revisions(s.deployments, app);
            && u.builds == t.builds && u.images == t.images
            && Revisions(u.deployments, app) ==
               before + [Deployment(app, |before| + 1, m.image, false), Deployment(app, |before| + 2, m.image, false)]
  {
    var app, t := s.builds[m.build].app, Finished(s, m);
    SuccessDeploys(s, m);
    assert t.builds[m.build].app == app && app in t.images;
    SuccessDeploys(t, m);
    assert t.images[app := m.image] == t.images;
    assert t.builds[m.build := t.builds[m.build]] == t.builds;
  }

  /** A build belongs to the application it was requested for, whatever completions report; only requests add builds. */
  lemma BuildsKeepTheirApp(s: State, req: Request, b: nat)
    requires Enabled(s, req) && b in Apply(s, req).builds
    ensures var t := Apply(s, req);
            if b in s.builds then t.builds[b].app == s.builds[b].app
            else req == RequestBuild(b, t.builds[b].app) && t.builds[b].app in s.images
  {
  }

  // -- the transactions as they run ---------------------------------------------------

  class Store {
    var images: map<nat, string>
    var deployments: seq<Deployment>
    var builds: map<nat, Build>

    ghost function View(): State
      reads this
    {
      State(images, deployments, builds)
    }

    /** The next revision number: one above the largest the application has. */
    method NextRevision(app: nat) returns (r: int)
      ensures r == MaxRevision(deployments, app) + 1
    {
      var max := 0;
      var any := false;
      for i := 0 to |deployments|
        invariant max == MaxRevision(deployments[..i], app) && (any <==> Revisions(deployments[..i], app) != [])
      {
        assert deployments[..i + 1][..i] == deployments[..i];
        if deployments[i].app == app {
          if !any || deployments[i].revision > max {
            max := deployments[i].revision;
          }
          any := true;
        }
      }
      assert deployments[..|deployments|] == deployments;
      return max + 1;
    }

    method CreateDeployment(app: nat, image: string)
      requires app in images
      modifies this`images, this`deployments
      ensures View() == Created(old(View()), app, image)
    {
      if image != "" && image != images[app] {
        images := images[app := image];
      }
      var revision := NextRevision(app);
      deployments := deployments + [Deployment(app, revision, images[app], false)];
    }

    method HandleBuildCompleted(m: Completed)
      modifies this
      ensures View() == Apply(old(View()), FinishBuild(m))
    {
      if m.build !in builds {
        return;
      }
      var b := builds[m.build];
      if !m.succeeded {
        var error := m.error;
        if error == "" {
          error := "build failed without a reported reason";
        }
        builds := builds[m.build := Build(b.app, Failed, None, None, Some(error))];
        return;
      }
      if m.image == "" {
        builds := builds[m.build := Build(b.app, Failed, None, None, Some("build reported success without an image reference"))];
        return;
      }
      if b.app !in images {
        return;
      }
      builds := builds[m.build := Build(b.app, Succeeded, Text(m.commit), Some(m.image), None)];
      CreateDeployment(b.app, m.image);
    }
  }
}
