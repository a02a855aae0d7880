/** Writing inventory documents that carry executable configuration (modules/shared/src/host-exec-config.ts). */
module ExecConfigWrite {
  import opened Options
  import opened Inventory
  import opened ExecConfig

  // Restoring omitted keys. Documents are JSON values: a key is absent or holds a value.

  /** An omitted key keeps the stored value, an empty value clears it. */
  function KeepText(incoming: Option<string>, stored: Option<string>): Option<string> {
    if incoming.None? then stored else if incoming.value == "" then None else incoming
  }

  function KeepItems(incoming: Option<seq<string>>, stored: Option<seq<string>>): Option<seq<string>> {
    if incoming.None? then stored else if incoming.value == [] then None else incoming
  }

  function Kept<T>(incoming: Option<T>, stored: Option<T>): Option<T> { if incoming.Some? then incoming else stored }

  function PreserveWorktree(previous: Option<Worktree>, wt: Worktree): Worktree {
    wt.(setupScript := KeepText(wt.setupScript, if previous.Some? then previous.value.setupScript else None),
        setupCacheInputs := KeepItems(wt.setupCacheInputs, if previous.Some? then previous.value.setupCacheInputs else None))
  }

  function StoredWorktree(previous: Option<Repository>, id: string): Option<Worktree> {
    if previous.Some? then FindWorktree(previous.value.worktrees, id) else None
  }

  function PreserveWorktrees(previous: Option<Repository>, ws: seq<Worktree>): seq<Worktree> {
    if ws == [] then [] else [PreserveWorktree(StoredWorktree(previous, ws[0].id), ws[0])] + PreserveWorktrees(previous, ws[1..])
  }

  function PreserveRepository(previous: Option<Repository>, r: Repository): Repository {
    r.(setupScript := KeepText(r.setupScript, if previous.Some? then previous.value.setupScript else None),
       setupCacheInputs := KeepItems(r.setupCacheInputs, if previous.Some? then previous.value.setupCacheInputs else None),
       terminalHookScript := KeepText(r.terminalHookScript, if previous.Some? then previous.value.terminalHookScript else None),
       worktrees := PreserveWorktrees(previous, r.worktrees))
  }

  function StoredRepository(existing: Option<Document>, id: string): Option<Repository> {
    if existing.Some? then FindRepository(existing.value.repositories, id) else None
  }

  function PreserveRepositories(existing: Option<Document>, rs: seq<Repository>): seq<Repository> {
    if rs == [] then [] else [PreserveRepository(StoredRepository(existing, rs[0].id), rs[0])] + PreserveRepositories(existing, rs[1..])
  }

  /** `preserveHostExecConfig`. Empty roots stay present: they lift the restriction. */
  function Preserve(incoming: Document, existing: Option<Document>): Document {
    incoming.(
    setupScript := KeepText(incoming.setupScript, if existing.Some? then existing.value.setupScript else None),
    setupCacheInputs := KeepItems(incoming.setupCacheInputs, if existing.Some? then existing.value.setupCacheInputs else None),
    setupCacheHostInputs := KeepItems(incoming.setupCacheHostInputs, if existing.Some? then existing.value.setupCacheHostInputs else None),
    allowedRoots := Kept(incoming.allowedRoots, if existing.Some? then existing.value.allowedRoots else None),
    updateConfig := Kept(incoming.updateConfig, if existing.Some? then existing.value.updateConfig else None),
    repositories := PreserveRepositories(existing, incoming.repositories))
  }

  lemma {:induction false} PreserveWorktreesSnoc(previous: Option<Repository>, ws: seq<Worktree>, w: Worktree)
    ensures PreserveWorktrees(previous, ws + [w]) == PreserveWorktrees(previous, ws) + [PreserveWorktree(StoredWorktree(previous, w.id), w)]
  {
    hide PreserveWorktree, StoredWorktree;
    if ws != [] {
      PreserveWorktreesSnoc(previous, ws[1..], w);
      assert (ws + [w])[1..] == ws[1..] + [w];
    }
  }

  lemma {:induction false} PreserveRepositoriesSnoc(existing: Option<Document>, rs: seq<Repository>, r: Repository)
    ensures PreserveRepositories(existing, rs + [r]) == PreserveRepositories(existing, rs) + [PreserveRepository(StoredRepository(existing, r.id), r)]
  {
    hide PreserveRepository, StoredRepository;
    if rs != [] {
      PreserveRepositoriesSnoc(existing, rs[1..], r);
      assert (rs + [r])[1..] == rs[1..] + [r];
    }
  }

  method PreserveEachWorktree(previous: Option<Repository>, ws: seq<Worktree>) returns (out: seq<Worktree>)
    ensures out == PreserveWorktrees(previous, ws)
  {
    hide PreserveWorktrees;
    out := [];
    assert PreserveWorktrees(previous, []) == [] by { NothingPreserved(previous, None); }
    for i := 0 to |ws|
      invariant out == PreserveWorktrees(previous, ws[..i])
    {
      var stored := StoredWorktree(previous, ws[i].id);
      var script := ws[i].setupScript;
      if script.None? {
        script := if stored.Some? then stored.value.setupScript else None;
      } else if script.value == "" {
        script := None;
      }
      var cache := ws[i].setupCacheInputs;
      if cache.None? {
        cache := if stored.Some? then stored.value.setupCacheInputs else None;
      } else if cache.value == [] {
        cache := None;
      }
      assert ws[..i + 1] == ws[..i] + [ws[i]];
      PreserveWorktreesSnoc(previous, ws[..i], ws[i]);
      out := out + [ws[i].(setupScript := script, setupCacheInputs := cache)];
    }
    assert ws[..|ws|] == ws;
  }

  lemma NothingPreserved(previous: Option<Repository>, existing: Option<Document>)
    ensures PreserveWorktrees(previous, []) == [] && PreserveRepositories(existing, []) == []
  {
  }

  method PreserveHostExecConfig(incoming: Document, existing: Option<Document>) returns (next: Document)
    ensures next == Preserve(incoming, existing)
  {
    hide PreserveRepositories, PreserveWorktrees;
    var repositories := [];
    assert PreserveRepositories(existing, []) == [] by { NothingPreserved(None, existing); }
    for i := 0 to |incoming.repositories|
      invariant repositories == PreserveRepositories(existing, incoming.repositories[..i])
    {
      var r := incoming.repositories[i];
      var previous := StoredRepository(existing, r.id);
      var worktrees := PreserveEachWorktree(previous, r.worktrees);
      assert incoming.repositories[..i + 1] == incoming.repositories[..i] + [r];
      PreserveRepositoriesSnoc(existing, incoming.repositories[..i], r);
      repositories := repositories + [r.(
        setupScript := KeepText(r.setupScript, if previous.Some? then previous.value.setupScript else None),
        setupCacheInputs := KeepItems(r.setupCacheInputs, if previous.Some? then previous.value.setupCacheInputs else None),
        terminalHookScript := KeepText(r.terminalHookScript, if previous.Some? then previous.value.terminalHookScript else None),
        worktrees := worktrees)];
    }
    assert incoming.repositories[..|incoming.repositories|] == incoming.repositories;
    next := incoming.(
      setupScript := KeepText(incoming.setupScript, if existing.Some? then existing.value.setupScript else None),
      setupCacheInputs := KeepItems(incoming.setupCacheInputs, if existing.Some? then existing.value.setupCacheInputs else None),
      setupCacheHostInputs := KeepItems(incoming.setupCacheHostInputs, if existing.Some? then existing.value.setupCacheHostInputs else None),
      allowedRoots := if incoming.allowedRoots.Some? then incoming.allowedRoots else if existing.Some? then existing.value.allowedRoots else None,
      updateConfig := if incoming.updateConfig.Some? then incoming.updateConfig else if existing.Some? then existing.value.updateConfig else None,
      repositories := repositories);
  }

  // When is restoring idempotent?

  /** A second pass changes nothing: no stored value was cleared, and no stored value was empty. */
  predicate StableText(incoming: Option<string>, stored: Option<string>) {
    if incoming.None? then stored != Some("") else incoming.value == "" ==> stored.None?
  }

  predicate StableItems(incoming: Option<seq<string>>, stored: Option<seq<string>>) {
    if incoming.None? then stored != Some([]) else incoming.value == [] ==> stored.None?
  }

  predicate StableWorktree(previous: Option<Worktree>, wt: Worktree) {
    && StableText(wt.setupScript, if previous.Some? then previous.value.setupScript else None)
    && StableItems(wt.setupCacheInputs, if previous.Some? then previous.value.setupCacheInputs else None)
  }

  predicate StableWorktrees(previous: Option<Repository>, ws: seq<Worktree>) {
    forall i :: 0 <= i < |ws| ==> StableWorktree(StoredWorktree(previous, ws[i].id), ws[i])
  }

  predicate StableRepository(previous: Option<Repository>, r: Repository) {
    && StableText(r.setupScript, if previous.Some? then previous.value.setupScript else None)
    && StableItems(r.setupCacheInputs, if previous.Some? then previous.value.setupCacheInputs else None)
    && StableText(r.terminalHookScript, if previous.Some? then previous.value.terminalHookScript else None)
    && StableWorktrees(previous, r.worktrees)
  }

  predicate StableRepositories(existing: Option<Document>, rs: seq<Repository>) {
    forall i :: 0 <= i < |rs| ==> StableRepository(StoredRepository(existing, rs[i].id), rs[i])
  }

  predicate Stable(incoming: Document, existing: Option<Document>) {
    && StableText(incoming.setupScript, if existing.Some? then existing.value.setupScript else None)
    && StableItems(incoming.setupCacheInputs, if existing.Some? then existing.value.setupCacheInputs else None)
    && StableItems(incoming.setupCacheHostInputs, if existing.Some? then existing.value.setupCacheHostInputs else None)
    && StableRepositories(existing, incoming.repositories)
  }

  lemma WorktreeTwice(previous: Option<Worktree>, wt: Worktree)
    ensures var once := PreserveWorktree(previous, wt); PreserveWorktree(previous, once) == once <==> StableWorktree(previous, wt)
  {
  }

  lemma {:induction false} WorktreesTwice(previous: Option<Repository>, ws: seq<Worktree>)
    ensures var once := PreserveWorktrees(previous, ws); PreserveWorktrees(previous, once) == once <==> StableWorktrees(previous, ws)
  {
    hide PreserveWorktree, StableWorktree, StoredWorktree;
    if ws != [] {
      var stored := StoredWorktree(previous, ws[0].id);
      var head, tail := PreserveWorktree(stored, ws[0]), PreserveWorktrees(previous, ws[1..]);
      WorktreeTwice(stored, ws[0]);
      WorktreesTwice(previous, ws[1..]);
      assert head.id == ws[0].id by { PreservedId(stored, ws[0]); }
      var once := PreserveWorktrees(previous, ws);
      assert once == [head] + tail && once[1..] == tail;
      HeadTail([PreserveWorktree(stored, head)], PreserveWorktrees(previous, tail), [head], tail);
      assert StableWorktrees(previous, ws) <==> StableWorktree(stored, ws[0]) && StableWorktrees(previous, ws[1..]) by {
        assert forall i :: 0 < i < |ws| ==> ws[i] == ws[1..][i - 1];
      }
    }
  }

  lemma PreservedId(previous: Option<Worktree>, wt: Worktree)
    ensures PreserveWorktree(previous, wt).id == wt.id
  {
  }

  lemma HeadTail<T>(a: seq<T>, b: seq<T>, x: seq<T>, y: seq<T>)
    requires |a| == |x|
    ensures a + b == x + y <==> a == x && b == y
  {
    if a + b == x + y {
      assert a == (a + b)[..|a|] && x == (x + y)[..|a|];
      assert b == (a + b)[|a|..] && y == (x + y)[|a|..];
    }
  }

  lemma RepositoryTwice(previous: Option<Repository>, r: Repository)
    ensures var once := PreserveRepository(previous, r); PreserveRepository(previous, once) == once <==> StableRepository(previous, r)
  {
    hide PreserveWorktrees, StableWorktrees;
    WorktreesTwice(previous, r.worktrees);
  }

  lemma {:induction false} RepositoriesTwice(existing: Option<Document>, rs: seq<Repository>)
    ensures var once := PreserveRepositories(existing, rs); PreserveRepositories(existing, once) == once <==> StableRepositories(existing, rs)
  {
    hide PreserveRepository, StableRepository, StoredRepository;
    if rs != [] {
      var stored := StoredRepository(existing, rs[0].id);
      var head, tail := PreserveRepository(stored, rs[0]), PreserveRepositories(existing, rs[1..]);
      RepositoryTwice(stored, rs[0]);
      RepositoriesTwice(existing, rs[1..]);
      assert head.id == rs[0].id by { PreservedRepositoryId(stored, rs[0]); }
      var once := PreserveRepositories(existing, rs);
      assert once == [head] + tail && once[1..] == tail;
      HeadTail([PreserveRepository(stored, head)], PreserveRepositories(existing, tail), [head], tail);
      assert StableRepositories(existing, rs) <==> StableRepository(stored, rs[0]) && StableRepositories(existing, rs[1..]) by {
        assert forall i :: 0 < i < |rs| ==> rs[i] == rs[1..][i - 1];
      }
    }
  }

  lemma PreservedRepositoryId(previous: Option<Repository>, r: Repository)
    ensures PreserveRepository(previous, r).id == r.id
  {
  }

  /** Restoring twice is restoring once exactly when no stored key is cleared and no stored value is empty. */
  lemma PreserveIdempotent(incoming: Document, existing: Option<Document>)
    ensures var once := Preserve(incoming, existing); Preserve(once, existing) == once <==> Stable(incoming, existing)
  {
    hide PreserveRepositories, StableRepositories;
    RepositoriesTwice(existing, incoming.repositories);
  }

  /** Clearing a stored script is undone by a second pass. */
  lemma SecondPassRestores(incoming: Document, existing: Document)
    requires incoming.setupScript == Some("") && existing.setupScript.Some? && existing.setupScript.value != ""
    ensures Preserve(incoming, Some(existing)).setupScript.None?
    ensures Preserve(Preserve(incoming, Some(existing)), Some(existing)).setupScript == existing.setupScript
  {
  }

  // Accepting a write

  ghost predicate DistinctWorktrees(ws: seq<Worktree>) {
    forall i, j :: 0 <= i < j < |ws| ==> ws[i].id != ws[j].id
  }

  ghost predicate DistinctIds(d: Document) {
    DistinctRepositories(d.repositories) && DistinctWorktrees(AllWorktrees(d.repositories))
  }

  /** `duplicateInventoryIdError`, without its message. */
  method HasDuplicateId(d: Document) returns (duplicate: bool)
    ensures duplicate <==> !DistinctIds(d)
  {
    var rs := d.repositories;
    var repositories, worktrees := {}, {};
    ghost var seen: seq<Worktree> := [];
    for i := 0 to |rs|
      invariant repositories == set k | 0 <= k < i :: rs[k].id
      invariant forall k, l :: 0 <= k < l < i ==> rs[k].id != rs[l].id
      invariant seen == AllWorktrees(rs[..i]) && worktrees == IdSet(seen) && DistinctWorktrees(seen)
    {
      hide AllWorktrees;
      if rs[i].id in repositories {
        ghost var k :| 0 <= k < i && rs[k].id == rs[i].id;
        return true;
      }
      repositories := repositories + {rs[i].id};
      var clash: bool;
      clash, worktrees := AddWorktrees(rs[i].worktrees, worktrees, seen);
      WorktreesUpTo(rs, i);
      if clash {
        NotDistinct(AllWorktrees(rs[..i + 1]), AllWorktrees(rs[i + 1..]));
        WorktreesSplit(rs, i + 1);
        return true;
      }
      seen := seen + rs[i].worktrees;
    }
    assert rs[..|rs|] == rs;
    return false;
  }

  ghost function IdSet(ws: seq<Worktree>): set<string> { set k | 0 <= k < |ws| :: ws[k].id }

  lemma WorktreesSplit(rs: seq<Repository>, i: nat)
    requires i <= |rs|
    ensures AllWorktrees(rs) == AllWorktrees(rs[..i]) + AllWorktrees(rs[i..])
  {
    AllWorktreesConcat(rs[..i], rs[i..]);
    assert rs[..i] + rs[i..] == rs;
  }

  lemma WorktreesUpTo(rs: seq<Repository>, i: nat)
    requires i < |rs|
    ensures AllWorktrees(rs[..i + 1]) == AllWorktrees(rs[..i]) + rs[i].worktrees
  {
    assert rs[..i + 1] == rs[..i] + [rs[i]];
    AllWorktreesConcat(rs[..i], [rs[i]]);
    assert AllWorktrees([rs[i]]) == rs[i].worktrees + [] == rs[i].worktrees;
  }

  lemma NotDistinct(xs: seq<Worktree>, ys: seq<Worktree>)
    requires !DistinctWorktrees(xs)
    ensures !DistinctWorktrees(xs + ys)
  {
    var i, j :| 0 <= i < j < |xs| && xs[i].id == xs[j].id;
    assert (xs + ys)[i] == xs[i] && (xs + ys)[j] == xs[j];
  }

  method AddWorktrees(ws: seq<Worktree>, known: set<string>, ghost seen: seq<Worktree>) returns (clash: bool, ids: set<string>)
    requires known == IdSet(seen) && DistinctWorktrees(seen)
    ensures clash <==> !DistinctWorktrees(seen + ws)
    ensures !clash ==> ids == IdSet(seen + ws)
  {
    ids := known;
    assert seen + ws[..0] == seen;
    for i := 0 to |ws|
      invariant DistinctWorktrees(seen + ws[..i]) && ids == IdSet(seen + ws[..i])
    {
      ghost var now := seen + ws[..i];
      assert seen + ws[..i + 1] == now + [ws[i]];
      if ws[i].id in ids {
        ghost var k :| 0 <= k < |now| && now[k].id == ws[i].id;
        assert (now + [ws[i]])[k].id == (now + [ws[i]])[|now|].id;
        NotDistinct(seen + ws[..i + 1], ws[i + 1..]);
        assert seen + ws[..i + 1] + ws[i + 1..] == seen + ws;
        return true, ids;
      }
      ids := ids + {ws[i].id};
      IdSetSnoc(now, ws[i]);
    }
    assert ws[..|ws|] == ws;
    clash := false;
  }

  lemma IdSetSnoc(ws: seq<Worktree>, w: Worktree)
    ensures IdSet(ws + [w]) == IdSet(ws) + {w.id}
  {
    var all := ws + [w];
    assert forall k :: 0 <= k < |ws| ==> all[k] == ws[k];
    assert all[|ws|] == w;
    forall x
      ensures x in IdSet(all) <==> x in IdSet(ws) || x == w.id
    {
      if x in IdSet(ws) {
        var k :| 0 <= k < |ws| && ws[k].id == x;
        assert all[k].id == x;
      }
    }
  }

  predicate Letter(c: char) { 'a' <= c <= 'z' || 'A' <= c <= 'Z' }

  /** POSIX, UNC or Windows drive path. */
  predicate IsAbsolute(path: string) {
    || (|path| >= 1 && path[0] == '/')
    || (|path| >= 2 && path[0] == '\\' && path[1] == '\\')
    || (|path| >= 3 && Letter(path[0]) && path[1] == ':' && (path[2] == '\\' || path[2] == '/'))
  }

  predicate RelativeHook(r: Repository) {
    r.terminalHookScript.Some? && r.terminalHookScript.value != "" && !IsAbsolute(r.terminalHookScript.value)
  }

  predicate HooksAbsolute(d: Document) {
    forall i :: 0 <= i < |d.repositories| ==> !RelativeHook(d.repositories[i])
  }

  /** An ASCII letter, by its code. */
  predicate IsLetterCode(n: int) { 65 <= n <= 90 || 97 <= n <= 122 }

  /** The absolute paths: a slash, two backslashes, or a drive letter, a colon and either slash. */
  lemma AbsoluteMeans(path: string)
    ensures IsAbsolute(path) <==>
            || "/" <= path || "\\\\" <= path
            || exists c :: IsLetterCode(c as int) && ([c] + ":/" <= path || [c] + ":\\" <= path)
  {
    if |path| >= 3 && Letter(path[0]) && path[1] == ':' && (path[2] == '\\' || path[2] == '/') {
      assert [path[0]] + ":/" <= path || [path[0]] + ":\\" <= path;
    }
    if c :| IsLetterCode(c as int) && ([c] + ":/" <= path || [c] + ":\\" <= path) {
      assert path[0] == c && path[1] == ':';
    }
  }

  /** A hook that is set must be an absolute path. */
  lemma HooksMean(d: Document)
    ensures HooksAbsolute(d) <==>
            forall r :: r in d.repositories ==> r.terminalHookScript.None? || r.terminalHookScript.value == "" || IsAbsolute(r.terminalHookScript.value)
  {
    hide IsAbsolute;
    if HooksAbsolute(d) {
      forall r | r in d.repositories
        ensures r.terminalHookScript.None? || r.terminalHookScript.value == "" || IsAbsolute(r.terminalHookScript.value)
      {
        var i :| 0 <= i < |d.repositories| && d.repositories[i] == r;
        assert !RelativeHook(d.repositories[i]);
      }
    }
  }

  datatype WriteResult =
    | Accepted(inventory: Document, edits: seq<Path>)
    | Invalid(edits: seq<Path>)
    | Forbidden(edits: seq<Path>)

  ghost predicate Readable(existing: Option<Document>, incoming: Document) {
    (existing.Some? ==> DistinctIds(existing.value)) && DistinctIds(incoming) && HooksAbsolute(Preserve(incoming, existing))
  }

  /**
   * `reconcileInventoryWrite`: without the capability a write is accepted exactly when nothing executable
   * would change; with it, every readable write is accepted. The result is the restored document either way.
   */
  method ReconcileInventoryWrite(existing: Option<Document>, incoming: Document, allowExecConfig: bool) returns (result: WriteResult)
    ensures result.Accepted? <==> Readable(existing, incoming) && (allowExecConfig || SameExec(existing, Preserve(incoming, existing)))
    ensures result.Forbidden? <==> Readable(existing, incoming) && !allowExecConfig && !SameExec(existing, Preserve(incoming, existing))
    ensures result.Accepted? ==> result.inventory == Preserve(incoming, existing)
    ensures result.Accepted? && !allowExecConfig ==> SameExec(existing, result.inventory)
    ensures !result.Invalid? ==> forall path :: path in result.edits <==> Edited(existing, Preserve(incoming, existing), path)
  {
    hide Preserve, SameExec, Edited, DistinctIds, RelativeHook;
    if existing.Some? {
      var stale := HasDuplicateId(existing.value);
      if stale {
        return Invalid([]);
      }
    }
    var duplicate := HasDuplicateId(incoming);
    if duplicate {
      return Invalid([]);
    }
    var inventory := PreserveHostExecConfig(incoming, existing);
    var edits := ListExecConfigEdits(existing, inventory);
    for i := 0 to |inventory.repositories|
      invariant forall k :: 0 <= k < i ==> !RelativeHook(inventory.repositories[k])
    {
      if RelativeHook(inventory.repositories[i]) {
        return Invalid(edits);
      }
    }
    if edits != [] && !allowExecConfig {
      return Forbidden(edits);
    }
    return Accepted(inventory, edits);
  }
}
