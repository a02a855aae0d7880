/** Merging a daemon registration into the stored inventory (services/api/src/control-plane-agent-registration.ts). */
module Registration {
  import opened Options
  import opened Inventory

  /** A worktree as the daemon advertises it. */
  datatype Advertised = Advertised(id: string, name: string, repositoryId: string, path: string, labels: seq<string>)

  datatype Registered = Registered(id: string, path: string, defaultBranch: Option<string>)

  datatype Identity = Identity(instanceId: string, startedAt: string)

  datatype Report = Report(
    repositories: seq<Registered>,
    worktrees: seq<Advertised>,
    capabilities: seq<string>,
    at: string,
    identity: Option<Identity>,
    runtime: Option<string>,
    workspacePools: Option<seq<Pool>>)

  function PreviousRepositories(previous: Option<Record>): seq<Repository> {
    if previous.Some? then previous.value.doc.repositories else []
  }

  function PreviousWorktree(previous: Option<Record>, wt: Advertised): Option<Worktree> {
    var repository := FindRepository(PreviousRepositories(previous), wt.repositoryId);
    if repository.None? then None else FindWorktree(repository.value.worktrees, wt.id)
  }

  /** Keep an operator's label edit while the daemon repeats its last snapshot. */
  function RegisteredLabels(previous: Option<Record>, wt: Advertised): seq<string> {
    var prior := PreviousWorktree(previous, wt);
    if prior.None? then wt.labels
    else if prior.value.daemonLabels.None? || wt.labels == prior.value.daemonLabels.value then prior.value.labels
    else wt.labels
  }

  const NO_DAEMON := Daemon(None, None, None, None, None)

  function Truthy(s: Option<string>): Option<string> { if s == Some("") then None else s }

  function PreservedDaemon(previous: Option<Record>): Daemon {
    if previous.None? then NO_DAEMON
    else
      var d := previous.value.daemon;
      Daemon(Truthy(d.instanceId), Truthy(d.startedAt), d.restartCount, Truthy(d.lastRestartDetectedAt), d.runtime)
  }

  /** The first known identity is a baseline; only a change of a known identity counts. */
  function NextDaemon(previous: Option<Record>, identity: Option<Identity>, at: string): Daemon {
    if identity.None? then PreservedDaemon(previous)
    else
      var d := if previous.Some? then previous.value.daemon else NO_DAEMON;
      var id := identity.value;
      var changed := d.instanceId.Some? && d.instanceId.value != id.instanceId;
      Daemon(
        Some(id.instanceId),
        if d.instanceId == Some(id.instanceId) && Truthy(d.startedAt).Some? then d.startedAt else Some(id.startedAt),
        Some(OrElse(d.restartCount, 0) + if changed then 1 else 0),
        if changed then Some(at) else Truthy(d.lastRestartDetectedAt),
        None)
  }

  /** Does the daemon advertise a worktree with this id, name or path? */
  predicate Matched(wt: Worktree, advertised: seq<Advertised>) {
    exists i :: 0 <= i < |advertised| &&
      (advertised[i].id == wt.id || advertised[i].name == wt.name || advertised[i].path == wt.path)
  }

  /** Configured worktrees that no advertisement replaces. */
  function Unadvertised(prior: seq<Worktree>, advertised: seq<Advertised>): seq<Worktree> {
    if prior == [] then []
    else (if Matched(prior[0], advertised) then [] else [prior[0]]) + Unadvertised(prior[1..], advertised)
  }

  predicate ReplacedRepository(repository: Repository, registered: seq<Registered>) {
    exists i :: 0 <= i < |registered| && (registered[i].id == repository.id || registered[i].path == repository.path)
  }

  /** Configured repositories the daemon did not register, less what it advertised elsewhere. */
  function Unregistered(prior: seq<Repository>, registered: seq<Registered>, advertised: seq<Advertised>): seq<Repository> {
    if prior == [] then []
    else
      (if ReplacedRepository(prior[0], registered) then []
       else [prior[0].(worktrees := Unadvertised(prior[0].worktrees, advertised))])
      + Unregistered(prior[1..], registered, advertised)
  }

  function InRepository(worktrees: seq<Advertised>, repositoryId: string): seq<Advertised> {
    if worktrees == [] then []
    else (if worktrees[0].repositoryId == repositoryId then [worktrees[0]] else []) + InRepository(worktrees[1..], repositoryId)
  }

  function MergeWorktree(previous: Option<Record>, prior: Option<Repository>, wt: Advertised): Worktree {
    var priorWorktree := if prior.Some? then FindWorktree(prior.value.worktrees, wt.id) else None;
    var labels := RegisteredLabels(previous, wt);
    if priorWorktree.Some? then
      priorWorktree.value.(id := wt.id, name := wt.name, path := wt.path, labels := labels, daemonLabels := Some(wt.labels))
    else Worktree(wt.id, wt.name, wt.path, labels, Some(wt.labels), None, None, None)
  }

  function MergeWorktrees(previous: Option<Record>, prior: Option<Repository>, worktrees: seq<Advertised>): (r: seq<Worktree>)
    ensures |r| == |worktrees|
    ensures forall i :: 0 <= i < |r| ==> r[i] == MergeWorktree(previous, prior, worktrees[i])
  {
    seq(|worktrees|, i requires 0 <= i < |worktrees| => MergeWorktree(previous, prior, worktrees[i]))
  }

  function MergeRepository(previous: Option<Record>, repository: Registered, advertised: seq<Advertised>): Repository {
    var prior := LastRepository(PreviousRepositories(previous), repository.id);
    var worktrees := MergeWorktrees(previous, prior, InRepository(advertised, repository.id))
                     + Unadvertised(if prior.Some? then prior.value.worktrees else [], advertised);
    if prior.Some? then
      prior.value.(id := repository.id, path := repository.path,
                   defaultBranch := OrElse(repository.defaultBranch, prior.value.defaultBranch), worktrees := worktrees)
    else
      Repository(repository.id, repository.path, OrElse(repository.defaultBranch, "main"), worktrees, None, None, None, None, None)
  }

  function MergeRepositories(previous: Option<Record>, registered: seq<Registered>, advertised: seq<Advertised>): seq<Repository> {
    if registered == [] then []
    else [MergeRepository(previous, registered[0], advertised)] + MergeRepositories(previous, registered[1..], advertised)
  }

  /** `buildRegisteredInventory`. The signed-update settings of the previous document are not carried over. */
  function Build(hostId: string, report: Report, previous: Option<Record>): Record {
    var prev := if previous.Some? then previous.value.doc else EMPTY;
    var daemon := NextDaemon(previous, report.identity, report.at);
    Record(
      hostId,
      Document(
        prev.setupScript, prev.setupCacheInputs, prev.setupCacheHostInputs, prev.allowedRoots, prev.requiredEnvironment,
        None,
        MergeRepositories(previous, report.repositories, report.worktrees)
        + Unregistered(PreviousRepositories(previous), report.repositories, report.worktrees),
        prev.providerAccounts,
        report.capabilities,
        if prev.workspacePools.Some? then prev.workspacePools else report.workspacePools),
      (if previous.Some? then previous.value.version else 0) + 1,
      if report.runtime.Some? then daemon.(runtime := report.runtime) else daemon,
      report.at)
  }

  const EMPTY := Document(None, None, None, None, None, None, [], [], [], None)

  function Group(groups: map<string, seq<Advertised>>, id: string): seq<Advertised> {
    if id in groups then groups[id] else []
  }

  /** The grouping loop of the source computes the per-repository lists used above. */
  method GroupByRepository(worktrees: seq<Advertised>) returns (groups: map<string, seq<Advertised>>)
    ensures forall id :: Group(groups, id) == InRepository(worktrees, id)
  {
    groups := map[];
    for i := 0 to |worktrees|
      invariant forall id :: Group(groups, id) == InRepository(worktrees[..i], id)
    {
      hide InRepository;
      ghost var before := groups;
      var wt := worktrees[i];
      var existing := if wt.repositoryId in groups then groups[wt.repositoryId] else [];
      groups := groups[wt.repositoryId := existing + [wt]];
      assert worktrees[..i + 1] == worktrees[..i] + [wt];
      forall id
        ensures Group(groups, id) == InRepository(worktrees[..i + 1], id)
      {
        InRepositorySnoc(worktrees[..i], wt, id);
        assert Group(before, id) == InRepository(worktrees[..i], id);
      }
    }
    assert worktrees[..|worktrees|] == worktrees;
  }

  lemma {:induction false} InRepositorySnoc(worktrees: seq<Advertised>, wt: Advertised, id: string)
    ensures InRepository(worktrees + [wt], id) == InRepository(worktrees, id) + if wt.repositoryId == id then [wt] else []
  {
    if worktrees != [] {
      InRepositorySnoc(worktrees[1..], wt, id);
      assert (worktrees + [wt])[1..] == worktrees[1..] + [wt];
    }
  }
}
