/** What an empty list of edits means for what is executed, and where (modules/shared/src/host-exec-config.ts). */
module ExecConfigMeaning {
  import opened Options
  import opened Inventory
  import opened ExecConfig

  predicate Blank(t: Option<string>) { t.None? || t.value == "" }

  predicate BlankList(t: Option<seq<string>>) { t.None? || t.value == [] }

  /** The same setting: an empty value is an absent one. */
  predicate SameText(a: Option<string>, b: Option<string>) { a == b || (Blank(a) && Blank(b)) }

  predicate SameList(a: Option<seq<string>>, b: Option<seq<string>>) { a == b || (BlankList(a) && BlankList(b)) }

  predicate SameRepositoryKeys(a: Option<Repository>, b: Option<Repository>) {
    match (a, b)
    case (Some(x), Some(y)) =>
      SameText(x.setupScript, y.setupScript) && SameList(x.setupCacheInputs, y.setupCacheInputs) && SameText(x.terminalHookScript, y.terminalHookScript)
    case (Some(x), None) => Blank(x.setupScript) && BlankList(x.setupCacheInputs) && Blank(x.terminalHookScript)
    case (None, Some(y)) => Blank(y.setupScript) && BlankList(y.setupCacheInputs) && Blank(y.terminalHookScript)
    case (None, None) => true
  }

  predicate SameWorktreeKeys(a: Option<Worktree>, b: Option<Worktree>) {
    match (a, b)
    case (Some(x), Some(y)) => SameText(x.setupScript, y.setupScript) && SameList(x.setupCacheInputs, y.setupCacheInputs)
    case (Some(x), None) => Blank(x.setupScript) && BlankList(x.setupCacheInputs)
    case (None, Some(y)) => Blank(y.setupScript) && BlankList(y.setupCacheInputs)
    case (None, None) => true
  }

  /** Every executable setting of host, repositories and worktrees is the same, and so is every workspace slot's place. */
  ghost predicate SameSettings(a: Document, b: Document) {
    && SameText(a.setupScript, b.setupScript) && SameList(a.setupCacheInputs, b.setupCacheInputs)
    && SameList(a.setupCacheHostInputs, b.setupCacheHostInputs) && SameList(a.allowedRoots, b.allowedRoots) && a.updateConfig == b.updateConfig
    && (forall r :: SameRepositoryKeys(RepositoryIn(Some(a), r), RepositoryIn(Some(b), r)))
    && (forall r, w :: SameWorktreeKeys(WorktreeIn(RepositoryIn(Some(a), r), w), WorktreeIn(RepositoryIn(Some(b), r), w)))
    && (forall p :: PoolIn(Some(a), p).Some? <==> PoolIn(Some(b), p).Some?)
    && (forall p, s :: SlotPathIn(PoolIn(Some(a), p), s) == SlotPathIn(PoolIn(Some(b), p), s))
  }

  /** Where a script or hook runs for the main checkout of a repository, if one does. */
  function RunsIn(d: Document, r: string): Option<string> {
    var repository := RepositoryIn(Some(d), r);
    if repository.Some? && !(Blank(d.setupScript) && Blank(repository.value.setupScript) && Blank(repository.value.terminalHookScript))
    then Some(repository.value.path) else None
  }

  /** Where one runs for a worktree. */
  function RunsInWorktree(d: Document, r: string, w: string): Option<string> {
    var repository := RepositoryIn(Some(d), r);
    var worktree := WorktreeIn(repository, w);
    if worktree.Some? && (RunsIn(d, r).Some? || !Blank(worktree.value.setupScript)) then Some(worktree.value.path) else None
  }

  /** Everything that runs under the new document ran in the same place under the old one. */
  ghost predicate RunsWhereItRan(a: Document, b: Document) {
    && (forall r :: RunsIn(b, r).Some? ==> RunsIn(a, r) == RunsIn(b, r))
    && (forall r, w :: RunsInWorktree(b, r, w).Some? ==> RunsInWorktree(a, r, w) == RunsInWorktree(b, r, w))
  }

  lemma RepositoryPlace(a: Document, b: Document, r: string)
    requires SameText(a.setupScript, b.setupScript) && SameRepositoryKeys(RepositoryIn(Some(a), r), RepositoryIn(Some(b), r))
    ensures (RepositoryMoved(Some(a), b, r) ==> !RepositoryTrusted(Some(a), b, r)) <==> (RunsIn(b, r).Some? ==> RunsIn(a, r) == RunsIn(b, r))
  {
    hide RepositoryIn;
  }

  lemma WorktreePlace(a: Document, b: Document, r: string, w: string)
    requires SameText(a.setupScript, b.setupScript) && SameRepositoryKeys(RepositoryIn(Some(a), r), RepositoryIn(Some(b), r))
    requires SameWorktreeKeys(WorktreeIn(RepositoryIn(Some(a), r), w), WorktreeIn(RepositoryIn(Some(b), r), w))
    ensures (WorktreeMoved(Some(a), b, r, w) ==> !WorktreeTrusted(Some(a), b, r, w)) <==>
            (RunsInWorktree(b, r, w).Some? ==> RunsInWorktree(a, r, w) == RunsInWorktree(b, r, w))
  {
    hide RepositoryIn, LastWorktree;
  }

  lemma ViewsAreKeys(a: Document, b: Document, r: string, w: string)
    ensures RepositoryView(RepositoryIn(Some(a), r)) == RepositoryView(RepositoryIn(Some(b), r)) <==>
            SameRepositoryKeys(RepositoryIn(Some(a), r), RepositoryIn(Some(b), r))
    ensures WorktreeView(WorktreeIn(RepositoryIn(Some(a), r), w)) == WorktreeView(WorktreeIn(RepositoryIn(Some(b), r), w)) <==>
            SameWorktreeKeys(WorktreeIn(RepositoryIn(Some(a), r), w), WorktreeIn(RepositoryIn(Some(b), r), w))
  {
    hide RepositoryIn, WorktreeIn;
  }

  lemma HostIsKeys(a: Document, b: Document)
    ensures HostView(Some(a)) == HostView(Some(b)) <==>
            && SameText(a.setupScript, b.setupScript) && SameList(a.setupCacheInputs, b.setupCacheInputs)
            && SameList(a.setupCacheHostInputs, b.setupCacheHostInputs) && SameList(a.allowedRoots, b.allowedRoots) && a.updateConfig == b.updateConfig
  {
  }

  /**
   * No edit is reported exactly when every executable setting is the same and everything that runs under the new
   * document ran, in the same place, under the old one.
   */
  lemma NoEditsMeans(a: Document, b: Document)
    ensures (forall path :: !Edited(Some(a), b, path)) <==> SameSettings(a, b) && RunsWhereItRan(a, b)
  {
    hide HostView, RepositoryView, WorktreeView, SameRepositoryKeys, SameWorktreeKeys, RunsIn, RunsInWorktree, Edited,
         RepositoryIn, WorktreeIn, PoolIn, SlotPathIn, RepositoryMoved, RepositoryTrusted, WorktreeMoved, WorktreeTrusted;
    UneditedIsSameExec(Some(a), b);
    HostIsKeys(a, b);
    forall r
      ensures RepositoryView(RepositoryIn(Some(a), r)) == RepositoryView(RepositoryIn(Some(b), r)) <==>
              SameRepositoryKeys(RepositoryIn(Some(a), r), RepositoryIn(Some(b), r))
    {
      ViewsAreKeys(a, b, r, "");
    }
    forall r, w
      ensures WorktreeView(WorktreeIn(RepositoryIn(Some(a), r), w)) == WorktreeView(WorktreeIn(RepositoryIn(Some(b), r), w)) <==>
              SameWorktreeKeys(WorktreeIn(RepositoryIn(Some(a), r), w), WorktreeIn(RepositoryIn(Some(b), r), w))
    {
      ViewsAreKeys(a, b, r, w);
    }
    PlacesAgree(a, b);
  }

  lemma PlacesAgree(a: Document, b: Document)
    ensures SameSettings(a, b) ==>
              (RunsWhereItRan(a, b) <==>
               && (forall r :: RepositoryMoved(Some(a), b, r) ==> !RepositoryTrusted(Some(a), b, r))
               && (forall r, w :: WorktreeMoved(Some(a), b, r, w) ==> !WorktreeTrusted(Some(a), b, r, w)))
  {
    if SameSettings(a, b) {
      hide SameRepositoryKeys, SameWorktreeKeys, RunsIn, RunsInWorktree,
           RepositoryIn, WorktreeIn, PoolIn, SlotPathIn, RepositoryMoved, RepositoryTrusted, WorktreeMoved, WorktreeTrusted;
      forall r
        ensures (RepositoryMoved(Some(a), b, r) ==> !RepositoryTrusted(Some(a), b, r)) <==> (RunsIn(b, r).Some? ==> RunsIn(a, r) == RunsIn(b, r))
      {
        RepositoryPlace(a, b, r);
      }
      forall r, w
        ensures (WorktreeMoved(Some(a), b, r, w) ==> !WorktreeTrusted(Some(a), b, r, w)) <==>
                (RunsInWorktree(b, r, w).Some? ==> RunsInWorktree(a, r, w) == RunsInWorktree(b, r, w))
      {
        WorktreePlace(a, b, r, w);
      }
    }
  }

  /** A changed place is reported exactly when a script or hook applies to it, before or after the write. */
  lemma PlaceEdits(a: Document, b: Document, r: string, w: string)
    ensures var x, y := LastRepository(a.repositories, r), LastRepository(b.repositories, r);
            var scripted := || !Blank(a.setupScript) || !Blank(b.setupScript)
                            || (x.Some? && (!Blank(x.value.setupScript) || !Blank(x.value.terminalHookScript)))
                            || (y.Some? && (!Blank(y.value.setupScript) || !Blank(y.value.terminalHookScript)));
            && (Edited(Some(a), b, RepositoryPath(r)) <==> y.Some? && (x.None? || x.value.path != y.value.path) && scripted)
            && (var u, v := WorktreeIn(x, w), WorktreeIn(y, w);
                Edited(Some(a), b, WorktreePath(r, w)) <==>
                && v.Some? && (u.None? || u.value.path != v.value.path)
                && (scripted || (u.Some? && !Blank(u.value.setupScript)) || !Blank(v.value.setupScript)))
  {
    hide LastRepository, LastWorktree;
  }

  /** Each key is reported under its own name, exactly when its value is another one. */
  lemma HostKeyEdits(a: Document, b: Document)
    ensures Edited(Some(a), b, HostScript) <==> !SameText(a.setupScript, b.setupScript)
    ensures Edited(Some(a), b, HostCache) <==> !SameList(a.setupCacheInputs, b.setupCacheInputs)
    ensures Edited(Some(a), b, HostFileCache) <==> !SameList(a.setupCacheHostInputs, b.setupCacheHostInputs)
    ensures Edited(Some(a), b, HostRoots) <==> !SameList(a.allowedRoots, b.allowedRoots)
    ensures Edited(Some(a), b, HostUpdate) <==> a.updateConfig != b.updateConfig
  {
  }

  lemma RepositoryKeyEdits(a: Document, b: Document, r: string, x: Repository, y: Repository)
    requires LastRepository(a.repositories, r) == Some(x) && LastRepository(b.repositories, r) == Some(y)
    ensures Edited(Some(a), b, RepositoryScript(r)) <==> !SameText(x.setupScript, y.setupScript)
    ensures Edited(Some(a), b, RepositoryCache(r)) <==> !SameList(x.setupCacheInputs, y.setupCacheInputs)
    ensures Edited(Some(a), b, RepositoryHook(r)) <==> !SameText(x.terminalHookScript, y.terminalHookScript)
  {
    hide LastRepository;
  }

  lemma WorktreeKeyEdits(a: Document, b: Document, r: string, w: string, x: Repository, y: Repository, u: Worktree, v: Worktree)
    requires LastRepository(a.repositories, r) == Some(x) && LastRepository(b.repositories, r) == Some(y)
    requires LastWorktree(x.worktrees, w) == Some(u) && LastWorktree(y.worktrees, w) == Some(v)
    ensures Edited(Some(a), b, WorktreeScript(r, w)) <==> !SameText(u.setupScript, v.setupScript)
    ensures Edited(Some(a), b, WorktreeCache(r, w)) <==> !SameList(u.setupCacheInputs, v.setupCacheInputs)
  {
    hide LastRepository, LastWorktree;
  }

  /** An entry that comes or goes is reported under each key for which it has a value. */
  lemma EntryEdits(a: Document, b: Document, r: string, x: Repository)
    requires (LastRepository(a.repositories, r) == Some(x) && LastRepository(b.repositories, r).None?)
             || (LastRepository(a.repositories, r).None? && LastRepository(b.repositories, r) == Some(x))
    ensures Edited(Some(a), b, RepositoryScript(r)) <==> !Blank(x.setupScript)
    ensures Edited(Some(a), b, RepositoryCache(r)) <==> !BlankList(x.setupCacheInputs)
    ensures Edited(Some(a), b, RepositoryHook(r)) <==> !Blank(x.terminalHookScript)
    ensures forall w, u :: LastWorktree(x.worktrees, w) == Some(u) ==>
              && (Edited(Some(a), b, WorktreeScript(r, w)) <==> !Blank(u.setupScript))
              && (Edited(Some(a), b, WorktreeCache(r, w)) <==> !BlankList(u.setupCacheInputs))
  {
    hide LastRepository, LastWorktree;
  }

  /** A pool is reported when it comes or goes, a slot when it comes, goes or moves. */
  lemma PoolEditsMean(a: Document, b: Document, p: string, s: string)
    ensures var x, y := LastPool(OrElse(a.workspacePools, []), p), LastPool(OrElse(b.workspacePools, []), p);
            var u := if x.Some? then LastSlot(x.value.slots, s) else None;
            var v := if y.Some? then LastSlot(y.value.slots, s) else None;
            && (Edited(Some(a), b, PoolAttachment(p)) <==> x.Some? != y.Some?)
            && (Edited(Some(a), b, SlotPath(p, s)) <==> u.Some? != v.Some? || (u.Some? && v.Some? && u.value.path != v.value.path))
  {
    hide LastPool, LastSlot;
  }
}
