/** Executable configuration inside inventory documents (modules/shared/src/host-exec-config.ts). */
module ExecConfig {
  import opened Options
  import opened Inventory

  // Comparing documents: an empty value equals an absent one

  function Text(o: Option<string>): string { OrElse(o, "") }

  function Items(o: Option<seq<string>>): seq<string> { OrElse(o, []) }

  function RepositoryIn(d: Option<Document>, r: string): Option<Repository> {
    if d.Some? then LastRepository(d.value.repositories, r) else None
  }

  function WorktreeIn(repository: Option<Repository>, w: string): Option<Worktree> {
    if repository.Some? then LastWorktree(repository.value.worktrees, w) else None
  }

  function PoolIn(d: Option<Document>, p: string): Option<Pool> {
    if d.Some? then LastPool(OrElse(d.value.workspacePools, []), p) else None
  }

  function SlotPathIn(pool: Option<Pool>, s: string): Option<string> {
    var slot := if pool.Some? then LastSlot(pool.value.slots, s) else None;
    if slot.Some? then Some(slot.value.path) else None
  }

  /** The executable settings of each level; a missing entry has the empty settings. */
  datatype HostExec = HostExec(script: string, cache: seq<string>, hostCache: seq<string>, roots: seq<string>, update: Option<string>)

  datatype RepositoryExec = RepositoryExec(script: string, cache: seq<string>, hook: string)

  datatype WorktreeExec = WorktreeExec(script: string, cache: seq<string>)

  function HostView(d: Option<Document>): HostExec {
    if d.None? then HostExec("", [], [], [], None)
    else
      HostExec(Text(d.value.setupScript), Items(d.value.setupCacheInputs), Items(d.value.setupCacheHostInputs),
               Items(d.value.allowedRoots), d.value.updateConfig)
  }

  function RepositoryView(r: Option<Repository>): RepositoryExec {
    if r.None? then RepositoryExec("", [], "")
    else RepositoryExec(Text(r.value.setupScript), Items(r.value.setupCacheInputs), Text(r.value.terminalHookScript))
  }

  function WorktreeView(w: Option<Worktree>): WorktreeExec {
    if w.None? then WorktreeExec("", []) else WorktreeExec(Text(w.value.setupScript), Items(w.value.setupCacheInputs))
  }

  /** Something executable runs in the repository's checkouts, before or after the write. */
  predicate RepositoryTrusted(existing: Option<Document>, incoming: Document, r: string) {
    var previous, next := RepositoryView(RepositoryIn(existing, r)), RepositoryView(RepositoryIn(Some(incoming), r));
    || HostView(existing).script != "" || Text(incoming.setupScript) != ""
    || previous.script != "" || next.script != "" || previous.hook != "" || next.hook != ""
  }

  predicate WorktreeTrusted(existing: Option<Document>, incoming: Document, r: string, w: string) {
    || RepositoryTrusted(existing, incoming, r)
    || WorktreeView(WorktreeIn(RepositoryIn(existing, r), w)).script != ""
    || WorktreeView(WorktreeIn(RepositoryIn(Some(incoming), r), w)).script != ""
  }

  /** The document ends up with the entry at a place it was not at before. */
  predicate RepositoryMoved(existing: Option<Document>, incoming: Document, r: string) {
    var previous, next := RepositoryIn(existing, r), RepositoryIn(Some(incoming), r);
    next.Some? && (previous.None? || previous.value.path != next.value.path)
  }

  predicate WorktreeMoved(existing: Option<Document>, incoming: Document, r: string, w: string) {
    var previous, next := WorktreeIn(RepositoryIn(existing, r), w), WorktreeIn(RepositoryIn(Some(incoming), r), w);
    next.Some? && (previous.None? || previous.value.path != next.value.path)
  }

  // Edited paths

  datatype Path =
    | HostScript | HostCache | HostFileCache | HostRoots | HostUpdate
    | RepositoryScript(r: string) | RepositoryCache(r: string) | RepositoryPath(r: string) | RepositoryHook(r: string)
    | WorktreeScript(r: string, w: string) | WorktreeCache(r: string, w: string) | WorktreePath(r: string, w: string)
    | PoolAttachment(p: string) | SlotPath(p: string, s: string)

  predicate Edited(existing: Option<Document>, incoming: Document, path: Path) {
    var before, after := HostView(existing), HostView(Some(incoming));
    match path
    case HostScript => before.script != after.script
    case HostCache => before.cache != after.cache
    case HostFileCache => before.hostCache != after.hostCache
    case HostRoots => before.roots != after.roots
    case HostUpdate => before.update != after.update
    case RepositoryScript(r) => RepositoryView(RepositoryIn(existing, r)).script != RepositoryView(RepositoryIn(Some(incoming), r)).script
    case RepositoryCache(r) => RepositoryView(RepositoryIn(existing, r)).cache != RepositoryView(RepositoryIn(Some(incoming), r)).cache
    case RepositoryHook(r) => RepositoryView(RepositoryIn(existing, r)).hook != RepositoryView(RepositoryIn(Some(incoming), r)).hook
    case RepositoryPath(r) => RepositoryMoved(existing, incoming, r) && RepositoryTrusted(existing, incoming, r)
    case WorktreeScript(r, w) =>
      WorktreeView(WorktreeIn(RepositoryIn(existing, r), w)).script != WorktreeView(WorktreeIn(RepositoryIn(Some(incoming), r), w)).script
    case WorktreeCache(r, w) =>
      WorktreeView(WorktreeIn(RepositoryIn(existing, r), w)).cache != WorktreeView(WorktreeIn(RepositoryIn(Some(incoming), r), w)).cache
    case WorktreePath(r, w) => WorktreeMoved(existing, incoming, r, w) && WorktreeTrusted(existing, incoming, r, w)
    case PoolAttachment(p) => PoolIn(existing, p).Some? != PoolIn(Some(incoming), p).Some?
    case SlotPath(p, s) => SlotPathIn(PoolIn(existing, p), s) != SlotPathIn(PoolIn(Some(incoming), p), s)
  }

  /** Nothing executable differs, at any level, between the two documents. */
  ghost predicate SameExec(existing: Option<Document>, incoming: Document) {
    && HostView(existing) == HostView(Some(incoming))
    && (forall r :: RepositoryView(RepositoryIn(existing, r)) == RepositoryView(RepositoryIn(Some(incoming), r)))
    && (forall r, w :: WorktreeView(WorktreeIn(RepositoryIn(existing, r), w)) == WorktreeView(WorktreeIn(RepositoryIn(Some(incoming), r), w)))
    && (forall p :: PoolIn(existing, p).Some? <==> PoolIn(Some(incoming), p).Some?)
    && (forall p, s :: SlotPathIn(PoolIn(existing, p), s) == SlotPathIn(PoolIn(Some(incoming), p), s))
    && (forall r :: RepositoryMoved(existing, incoming, r) ==> !RepositoryTrusted(existing, incoming, r))
    && (forall r, w :: WorktreeMoved(existing, incoming, r, w) ==> !WorktreeTrusted(existing, incoming, r, w))
  }

  ghost predicate Unedited(existing: Option<Document>, incoming: Document) {
    forall path :: !Edited(existing, incoming, path)
  }

  /** No path is edited exactly when every executable view, and every trusted place, agrees. */
  lemma UneditedIsSameExec(existing: Option<Document>, incoming: Document)
    ensures Unedited(existing, incoming) <==> SameExec(existing, incoming)
  {
    if Unedited(existing, incoming) {
      UneditedAgrees(existing, incoming);
    }
    if SameExec(existing, incoming) {
      hide RepositoryIn, WorktreeIn, PoolIn, SlotPathIn, RepositoryTrusted, WorktreeTrusted, RepositoryMoved, WorktreeMoved;
    }
  }

  lemma UneditedAgrees(existing: Option<Document>, incoming: Document)
    requires Unedited(existing, incoming)
    ensures SameExec(existing, incoming)
  {
    hide RepositoryIn, WorktreeIn, PoolIn, SlotPathIn, RepositoryTrusted, WorktreeTrusted, RepositoryMoved, WorktreeMoved;
    assert HostView(existing) == HostView(Some(incoming)) by {
      assert !Edited(existing, incoming, HostScript) && !Edited(existing, incoming, HostCache) && !Edited(existing, incoming, HostFileCache);
      assert !Edited(existing, incoming, HostRoots) && !Edited(existing, incoming, HostUpdate);
    }
    forall r
      ensures RepositoryView(RepositoryIn(existing, r)) == RepositoryView(RepositoryIn(Some(incoming), r))
      ensures RepositoryMoved(existing, incoming, r) ==> !RepositoryTrusted(existing, incoming, r)
    {
      assert !Edited(existing, incoming, RepositoryScript(r)) && !Edited(existing, incoming, RepositoryCache(r));
      assert !Edited(existing, incoming, RepositoryHook(r)) && !Edited(existing, incoming, RepositoryPath(r));
    }
    forall r, w
      ensures WorktreeView(WorktreeIn(RepositoryIn(existing, r), w)) == WorktreeView(WorktreeIn(RepositoryIn(Some(incoming), r), w))
      ensures WorktreeMoved(existing, incoming, r, w) ==> !WorktreeTrusted(existing, incoming, r, w)
    {
      assert !Edited(existing, incoming, WorktreeScript(r, w)) && !Edited(existing, incoming, WorktreeCache(r, w));
      assert !Edited(existing, incoming, WorktreePath(r, w));
    }
    forall p
      ensures PoolIn(existing, p).Some? <==> PoolIn(Some(incoming), p).Some?
    {
      assert !Edited(existing, incoming, PoolAttachment(p));
    }
    forall p, s
      ensures SlotPathIn(PoolIn(existing, p), s) == SlotPathIn(PoolIn(Some(incoming), p), s)
    {
      assert !Edited(existing, incoming, SlotPath(p, s));
    }
  }

  // Collecting the edits

  function RepositoryIds(repositories: seq<Repository>): seq<string> {
    seq(|repositories|, i requires 0 <= i < |repositories| => repositories[i].id)
  }

  function WorktreeIds(worktrees: seq<Worktree>): seq<string> {
    seq(|worktrees|, i requires 0 <= i < |worktrees| => worktrees[i].id)
  }

  function PoolIds(pools: seq<Pool>): seq<string> {
    seq(|pools|, i requires 0 <= i < |pools| => pools[i].workspacePoolId)
  }

  function SlotIds(slots: seq<Slot>): seq<string> {
    seq(|slots|, i requires 0 <= i < |slots| => slots[i].id)
  }

  /** Both lists, each id once, in first-seen order. */
  method IdsInOrder(existing: seq<string>, incoming: seq<string>) returns (ordered: seq<string>)
    ensures forall id :: id in ordered <==> id in existing || id in incoming
    ensures forall i, j :: 0 <= i < j < |ordered| ==> ordered[i] != ordered[j]
  {
    var ids := {};
    ordered := [];
    var all := existing + incoming;
    for i := 0 to |all|
      invariant forall id :: id in ids <==> id in all[..i]
      invariant forall id :: id in ordered <==> id in ids
      invariant forall k, l :: 0 <= k < l < |ordered| ==> ordered[k] != ordered[l]
    {
      if all[i] !in ids {
        ids := ids + {all[i]};
        ordered := ordered + [all[i]];
      }
    }
    assert all[..|all|] == all;
  }

  lemma {:induction false} LastRepositoryNone(repositories: seq<Repository>, id: string)
    ensures LastRepository(repositories, id).None? <==> id !in RepositoryIds(repositories)
  {
    if repositories != [] {
      LastRepositoryNone(repositories[1..], id);
      assert RepositoryIds(repositories) == [repositories[0].id] + RepositoryIds(repositories[1..]);
    }
  }

  lemma {:induction false} LastWorktreeNone(worktrees: seq<Worktree>, id: string)
    ensures LastWorktree(worktrees, id).None? <==> id !in WorktreeIds(worktrees)
  {
    if worktrees != [] {
      LastWorktreeNone(worktrees[1..], id);
      assert WorktreeIds(worktrees) == [worktrees[0].id] + WorktreeIds(worktrees[1..]);
    }
  }

  lemma {:induction false} LastPoolNone(pools: seq<Pool>, id: string)
    ensures LastPool(pools, id).None? <==> id !in PoolIds(pools)
  {
    if pools != [] {
      LastPoolNone(pools[1..], id);
      assert PoolIds(pools) == [pools[0].workspacePoolId] + PoolIds(pools[1..]);
    }
  }

  lemma {:induction false} LastSlotNone(slots: seq<Slot>, id: string)
    ensures LastSlot(slots, id).None? <==> id !in SlotIds(slots)
  {
    if slots != [] {
      LastSlotNone(slots[1..], id);
      assert SlotIds(slots) == [slots[0].id] + SlotIds(slots[1..]);
    }
  }

  predicate OfWorktree(path: Path, r: string, w: string) {
    match path
    case WorktreeScript(pr, pw) => pr == r && pw == w
    case WorktreeCache(pr, pw) => pr == r && pw == w
    case WorktreePath(pr, pw) => pr == r && pw == w
    case _ => false
  }

  predicate OfRepository(path: Path, r: string) {
    match path
    case RepositoryScript(pr) => pr == r
    case RepositoryCache(pr) => pr == r
    case RepositoryPath(pr) => pr == r
    case RepositoryHook(pr) => pr == r
    case WorktreeScript(pr, _) => pr == r
    case WorktreeCache(pr, _) => pr == r
    case WorktreePath(pr, _) => pr == r
    case _ => false
  }

  predicate OfPool(path: Path, p: string) {
    match path
    case PoolAttachment(pp) => pp == p
    case SlotPath(pp, _) => pp == p
    case _ => false
  }

  method WorktreeEdits(existing: Option<Document>, incoming: Document, r: string, w: string) returns (edits: seq<Path>)
    ensures forall path :: path in edits <==> OfWorktree(path, r, w) && Edited(existing, incoming, path)
  {
    hide LastRepository, LastWorktree, RepositoryTrusted;
    var previous, next := WorktreeIn(RepositoryIn(existing, r), w), WorktreeIn(RepositoryIn(Some(incoming), r), w);
    edits := [];
    if WorktreeView(previous).script != WorktreeView(next).script {
      edits := edits + [WorktreeScript(r, w)];
    }
    if WorktreeView(previous).cache != WorktreeView(next).cache {
      edits := edits + [WorktreeCache(r, w)];
    }
    var trusted := RepositoryTrusted(existing, incoming, r) || WorktreeView(previous).script != "" || WorktreeView(next).script != "";
    if trusted && next.Some? && (previous.None? || previous.value.path != next.value.path) {
      edits := edits + [WorktreePath(r, w)];
    }
  }

  /** A worktree in neither document is not edited. */
  lemma UnknownWorktree(existing: Option<Document>, incoming: Document, r: string, w: string, path: Path)
    requires OfWorktree(path, r, w) && Edited(existing, incoming, path)
    ensures WorktreeIn(RepositoryIn(existing, r), w).Some? || WorktreeIn(RepositoryIn(Some(incoming), r), w).Some?
  {
    hide RepositoryIn, WorktreeIn, WorktreeTrusted;
  }

  lemma UnknownRepository(existing: Option<Document>, incoming: Document, r: string, path: Path)
    requires OfRepository(path, r) && Edited(existing, incoming, path)
    ensures RepositoryIn(existing, r).Some? || RepositoryIn(Some(incoming), r).Some?
  {
    hide RepositoryIn, LastWorktree, WorktreeTrusted, RepositoryTrusted;
  }

  lemma UnknownPool(existing: Option<Document>, incoming: Document, p: string, path: Path)
    requires OfPool(path, p) && Edited(existing, incoming, path)
    ensures PoolIn(existing, p).Some? || PoolIn(Some(incoming), p).Some?
  {
    hide PoolIn;
  }

  function Worktrees(repository: Option<Repository>): seq<Worktree> {
    if repository.Some? then repository.value.worktrees else []
  }

  method RepositoryEdits(existing: Option<Document>, incoming: Document, r: string) returns (edits: seq<Path>)
    ensures forall path :: path in edits <==> OfRepository(path, r) && Edited(existing, incoming, path)
  {
    hide LastRepository, RepositoryTrusted;
    var previous, next := RepositoryIn(existing, r), RepositoryIn(Some(incoming), r);
    edits := [];
    if RepositoryView(previous).script != RepositoryView(next).script {
      edits := edits + [RepositoryScript(r)];
    }
    if RepositoryView(previous).cache != RepositoryView(next).cache {
      edits := edits + [RepositoryCache(r)];
    }
    if next.Some? && (previous.None? || previous.value.path != next.value.path) && RepositoryTrusted(existing, incoming, r) {
      edits := edits + [RepositoryPath(r)];
    }
    if RepositoryView(previous).hook != RepositoryView(next).hook {
      edits := edits + [RepositoryHook(r)];
    }
    var more := AllWorktreeEdits(existing, incoming, r);
    edits := edits + more;
  }

  predicate IsWorktreePath(path: Path) { path.WorktreeScript? || path.WorktreeCache? || path.WorktreePath? }

  method AllWorktreeEdits(existing: Option<Document>, incoming: Document, r: string) returns (edits: seq<Path>)
    ensures forall path :: path in edits <==> IsWorktreePath(path) && path.r == r && Edited(existing, incoming, path)
  {
    hide Edited, RepositoryIn;
    var previous, next := RepositoryIn(existing, r), RepositoryIn(Some(incoming), r);
    var ids := IdsInOrder(WorktreeIds(Worktrees(previous)), WorktreeIds(Worktrees(next)));
    edits := [];
    for i := 0 to |ids|
      invariant forall path :: path in edits <==>
                  IsWorktreePath(path) && path.r == r && path.w in ids[..i] && Edited(existing, incoming, path)
    {
      var more := WorktreeEdits(existing, incoming, r, ids[i]);
      edits := edits + more;
    }
    assert ids[..|ids|] == ids;
    forall path | IsWorktreePath(path) && path.r == r && Edited(existing, incoming, path)
      ensures path.w in ids
    {
      UnknownWorktree(existing, incoming, r, path.w, path);
      LastWorktreeNone(Worktrees(previous), path.w);
      LastWorktreeNone(Worktrees(next), path.w);
    }
  }

  method PoolEdits(existing: Option<Document>, incoming: Document, p: string) returns (edits: seq<Path>)
    ensures forall path :: path in edits <==> OfPool(path, p) && Edited(existing, incoming, path)
  {
    hide PoolIn;
    var previous, next := PoolIn(existing, p), PoolIn(Some(incoming), p);
    edits := if previous.None? != next.None? then [PoolAttachment(p)] else [];
    var before, after := if previous.Some? then previous.value.slots else [], if next.Some? then next.value.slots else [];
    var ids := IdsInOrder(SlotIds(before), SlotIds(after));
    for i := 0 to |ids|
      invariant forall path :: path in edits <==>
                  OfPool(path, p) && Edited(existing, incoming, path) && (path.SlotPath? ==> path.s in ids[..i])
    {
      if SlotPathIn(previous, ids[i]) != SlotPathIn(next, ids[i]) {
        edits := edits + [SlotPath(p, ids[i])];
      }
      assert ids[..i + 1] == ids[..i] + [ids[i]];
    }
    assert ids[..|ids|] == ids;
    forall s | SlotPathIn(previous, s) != SlotPathIn(next, s)
      ensures s in ids
    {
      LastSlotNone(before, s);
      LastSlotNone(after, s);
    }
  }

  method HostEdits(existing: Option<Document>, incoming: Document) returns (edits: seq<Path>)
    ensures forall path :: path in edits <==> IsHostPath(path) && Edited(existing, incoming, path)
  {
    var before, after := HostView(existing), HostView(Some(incoming));
    edits := [];
    if before.script != after.script { edits := edits + [HostScript]; }
    if before.cache != after.cache { edits := edits + [HostCache]; }
    if before.hostCache != after.hostCache { edits := edits + [HostFileCache]; }
    if before.roots != after.roots { edits := edits + [HostRoots]; }
    if before.update != after.update { edits := edits + [HostUpdate]; }
  }

  predicate IsHostPath(path: Path) {
    path.HostScript? || path.HostCache? || path.HostFileCache? || path.HostRoots? || path.HostUpdate?
  }

  predicate IsRepositoryPath(path: Path) {
    IsWorktreePath(path) || path.RepositoryScript? || path.RepositoryCache? || path.RepositoryPath? || path.RepositoryHook?
  }

  predicate IsPoolPath(path: Path) { path.PoolAttachment? || path.SlotPath? }

  method AllRepositoryEdits(existing: Option<Document>, incoming: Document) returns (edits: seq<Path>)
    ensures forall path :: path in edits <==> IsRepositoryPath(path) && Edited(existing, incoming, path)
  {
    hide Edited;
    var before := if existing.Some? then existing.value.repositories else [];
    var ids := IdsInOrder(RepositoryIds(before), RepositoryIds(incoming.repositories));
    edits := [];
    for i := 0 to |ids|
      invariant forall path :: path in edits <==> IsRepositoryPath(path) && path.r in ids[..i] && Edited(existing, incoming, path)
    {
      var more := RepositoryEdits(existing, incoming, ids[i]);
      edits := edits + more;
    }
    assert ids[..|ids|] == ids;
    forall path | IsRepositoryPath(path) && Edited(existing, incoming, path)
      ensures path.r in ids
    {
      UnknownRepository(existing, incoming, path.r, path);
      LastRepositoryNone(before, path.r);
      LastRepositoryNone(incoming.repositories, path.r);
    }
  }

  method AllPoolEdits(existing: Option<Document>, incoming: Document) returns (edits: seq<Path>)
    ensures forall path :: path in edits <==> IsPoolPath(path) && Edited(existing, incoming, path)
  {
    hide Edited;
    var before := if existing.Some? then OrElse(existing.value.workspacePools, []) else [];
    var after := OrElse(incoming.workspacePools, []);
    var ids := IdsInOrder(PoolIds(before), PoolIds(after));
    edits := [];
    for i := 0 to |ids|
      invariant forall path :: path in edits <==> IsPoolPath(path) && path.p in ids[..i] && Edited(existing, incoming, path)
    {
      var more := PoolEdits(existing, incoming, ids[i]);
      edits := edits + more;
    }
    assert ids[..|ids|] == ids;
    forall path | IsPoolPath(path) && Edited(existing, incoming, path)
      ensures path.p in ids
    {
      UnknownPool(existing, incoming, path.p, path);
      LastPoolNone(before, path.p);
      LastPoolNone(after, path.p);
    }
  }

  /** `listExecConfigEdits` reports exactly the edited paths. */
  method ListExecConfigEdits(existing: Option<Document>, incoming: Document) returns (edits: seq<Path>)
    ensures forall path :: path in edits <==> Edited(existing, incoming, path)
    ensures edits == [] <==> SameExec(existing, incoming)
  {
    hide Edited, SameExec;
    var host := HostEdits(existing, incoming);
    var repositories := AllRepositoryEdits(existing, incoming);
    var pools := AllPoolEdits(existing, incoming);
    edits := host + repositories + pools;
    UneditedIsSameExec(existing, incoming);
    assert edits != [] ==> edits[0] in edits;
  }
}
