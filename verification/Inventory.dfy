/** Host inventory documents (modules/shared/src/host-inventory.ts). An absent key is `None`. */
module Inventory {
  import opened Options

  datatype Override = Override(enabled: Option<bool>, commandId: Option<string>)

  datatype Worktree = Worktree(
    id: string,
    name: string,
    path: string,
    labels: seq<string>,
    daemonLabels: Option<seq<string>>,
    setupScript: Option<string>,
    setupCacheInputs: Option<seq<string>>,
    overrides: Option<map<string, Override>>)

  datatype Repository = Repository(
    id: string,
    path: string,
    defaultBranch: string,
    worktrees: seq<Worktree>,
    setupScript: Option<string>,
    setupCacheInputs: Option<seq<string>>,
    terminalHookScript: Option<string>,
    requiredEnvironment: Option<seq<string>>,
    overrides: Option<map<string, Override>>)

  datatype ProviderAccount = ProviderAccount(providerAccountId: string, commandId: Option<string>)

  datatype Slot = Slot(id: string, name: string, path: string)

  datatype Pool = Pool(workspacePoolId: string, slots: seq<Slot>)

  /** `updateConfig` is held as its JSON text, which is how the source compares it. */
  datatype Document = Document(
    setupScript: Option<string>,
    setupCacheInputs: Option<seq<string>>,
    setupCacheHostInputs: Option<seq<string>>,
    allowedRoots: Option<seq<string>>,
    requiredEnvironment: Option<seq<string>>,
    updateConfig: Option<string>,
    repositories: seq<Repository>,
    providerAccounts: seq<ProviderAccount>,
    capabilities: seq<string>,
    workspacePools: Option<seq<Pool>>)

  /** Daemon telemetry kept beside the document. */
  datatype Daemon = Daemon(
    instanceId: Option<string>,
    startedAt: Option<string>,
    restartCount: Option<nat>,
    lastRestartDetectedAt: Option<string>,
    runtime: Option<string>)

  datatype Record = Record(hostId: string, doc: Document, version: nat, daemon: Daemon, updatedAt: string)

  /** First entry with the given id, as `Array.find` gives it. */
  function FindRepository(repositories: seq<Repository>, id: string): (r: Option<Repository>)
    ensures r.Some? ==> r.value in repositories && r.value.id == id
    ensures r.None? ==> forall i :: 0 <= i < |repositories| ==> repositories[i].id != id
  {
    if repositories == [] then None
    else if repositories[0].id == id then Some(repositories[0])
    else FindRepository(repositories[1..], id)
  }

  function FindWorktree(worktrees: seq<Worktree>, id: string): (r: Option<Worktree>)
    ensures r.Some? ==> r.value in worktrees && r.value.id == id
    ensures r.None? ==> forall i :: 0 <= i < |worktrees| ==> worktrees[i].id != id
  {
    if worktrees == [] then None
    else if worktrees[0].id == id then Some(worktrees[0])
    else FindWorktree(worktrees[1..], id)
  }

  /** The entry a map keyed by id holds: the last one with the id. */
  function LastRepository(repositories: seq<Repository>, id: string): Option<Repository> {
    if repositories == [] then None
    else
      var later := LastRepository(repositories[1..], id);
      if later.Some? then later else if repositories[0].id == id then Some(repositories[0]) else None
  }

  function LastWorktree(worktrees: seq<Worktree>, id: string): Option<Worktree> {
    if worktrees == [] then None
    else
      var later := LastWorktree(worktrees[1..], id);
      if later.Some? then later else if worktrees[0].id == id then Some(worktrees[0]) else None
  }

  function LastPool(pools: seq<Pool>, id: string): Option<Pool> {
    if pools == [] then None
    else
      var later := LastPool(pools[1..], id);
      if later.Some? then later else if pools[0].workspacePoolId == id then Some(pools[0]) else None
  }

  function LastSlot(slots: seq<Slot>, id: string): Option<Slot> {
    if slots == [] then None
    else
      var later := LastSlot(slots[1..], id);
      if later.Some? then later else if slots[0].id == id then Some(slots[0]) else None
  }

  ghost predicate DistinctRepositories(repositories: seq<Repository>) {
    forall i, j :: 0 <= i < j < |repositories| ==> repositories[i].id != repositories[j].id
  }

  lemma FindDistinct(repositories: seq<Repository>, i: nat)
    requires i < |repositories| && DistinctRepositories(repositories)
    ensures FindRepository(repositories, repositories[i].id) == Some(repositories[i])
  {
    var r := FindRepository(repositories, repositories[i].id).value;
    var j :| 0 <= j < |repositories| && repositories[j] == r;
  }

  /** All worktrees of a host, in document order. */
  function AllWorktrees(repositories: seq<Repository>): seq<Worktree> {
    if repositories == [] then [] else repositories[0].worktrees + AllWorktrees(repositories[1..])
  }

  lemma {:induction false} AllWorktreesConcat(xs: seq<Repository>, ys: seq<Repository>)
    ensures AllWorktrees(xs + ys) == AllWorktrees(xs) + AllWorktrees(ys)
  {
    if xs == [] {
      assert xs + ys == ys;
    } else {
      AllWorktreesConcat(xs[1..], ys);
      assert (xs + ys)[1..] == xs[1..] + ys;
      Assoc(xs[0].worktrees, AllWorktrees(xs[1..]), AllWorktrees(ys));
    }
  }

  lemma Assoc(a: seq<Worktree>, b: seq<Worktree>, c: seq<Worktree>)
    ensures a + (b + c) == a + b + c
  {
  }

  // What a look-up finds: the first entry with the id, or the last

  lemma {:induction false} LastRepositoryAt(rs: seq<Repository>, id: string, k: nat)
    requires k < |rs| && rs[k].id == id && forall j :: k < j < |rs| ==> rs[j].id != id
    ensures LastRepository(rs, id) == Some(rs[k])
  {
    if k > 0 {
      LastRepositoryAt(rs[1..], id, k - 1);
    } else {
      NoRepository(rs[1..], id);
    }
  }

  lemma {:induction false} NoRepository(rs: seq<Repository>, id: string)
    requires forall j :: 0 <= j < |rs| ==> rs[j].id != id
    ensures LastRepository(rs, id) == None
  {
    if rs != [] {
      NoRepository(rs[1..], id);
    }
  }

  lemma {:induction false} LastWorktreeAt(ws: seq<Worktree>, id: string, k: nat)
    requires k < |ws| && ws[k].id == id && forall j :: k < j < |ws| ==> ws[j].id != id
    ensures LastWorktree(ws, id) == Some(ws[k])
  {
    if k > 0 {
      LastWorktreeAt(ws[1..], id, k - 1);
    } else {
      NoWorktree(ws[1..], id);
    }
  }

  lemma {:induction false} NoWorktree(ws: seq<Worktree>, id: string)
    requires forall j :: 0 <= j < |ws| ==> ws[j].id != id
    ensures LastWorktree(ws, id) == None
  {
    if ws != [] {
      NoWorktree(ws[1..], id);
    }
  }

  lemma {:induction false} LastPoolAt(pools: seq<Pool>, id: string, k: nat)
    requires k < |pools| && pools[k].workspacePoolId == id && forall j :: k < j < |pools| ==> pools[j].workspacePoolId != id
    ensures LastPool(pools, id) == Some(pools[k])
  {
    if k > 0 {
      LastPoolAt(pools[1..], id, k - 1);
    } else {
      NoPool(pools[1..], id);
    }
  }

  lemma {:induction false} NoPool(pools: seq<Pool>, id: string)
    requires forall j :: 0 <= j < |pools| ==> pools[j].workspacePoolId != id
    ensures LastPool(pools, id) == None
  {
    if pools != [] {
      NoPool(pools[1..], id);
    }
  }

  lemma {:induction false} LastSlotAt(slots: seq<Slot>, id: string, k: nat)
    requires k < |slots| && slots[k].id == id && forall j :: k < j < |slots| ==> slots[j].id != id
    ensures LastSlot(slots, id) == Some(slots[k])
  {
    if k > 0 {
      LastSlotAt(slots[1..], id, k - 1);
    } else {
      NoSlot(slots[1..], id);
    }
  }

  lemma {:induction false} NoSlot(slots: seq<Slot>, id: string)
    requires forall j :: 0 <= j < |slots| ==> slots[j].id != id
    ensures LastSlot(slots, id) == None
  {
    if slots != [] {
      NoSlot(slots[1..], id);
    }
  }

  lemma {:induction false} FindRepositoryFirst(rs: seq<Repository>, id: string, k: nat)
    requires k < |rs| && rs[k].id == id && forall j :: 0 <= j < k ==> rs[j].id != id
    ensures FindRepository(rs, id) == Some(rs[k])
  {
    if k > 0 {
      FindRepositoryFirst(rs[1..], id, k - 1);
    }
  }

  lemma {:induction false} FindWorktreeFirst(ws: seq<Worktree>, id: string, k: nat)
    requires k < |ws| && ws[k].id == id && forall j :: 0 <= j < k ==> ws[j].id != id
    ensures FindWorktree(ws, id) == Some(ws[k])
  {
    if k > 0 {
      FindWorktreeFirst(ws[1..], id, k - 1);
    }
  }
}
