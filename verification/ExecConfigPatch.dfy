/** The exec-config patch and its agreement with an inventory PUT (modules/shared/src/host-exec-config.ts). */
module ExecConfigPatch {
  import opened Options
  import opened Inventory
  import opened ExecConfig
  import opened ExecConfigWrite

  datatype WorktreePatch = WorktreePatch(id: string, setupScript: Option<string>, setupCacheInputs: Option<seq<string>>)

  datatype RepositoryPatch = RepositoryPatch(
    id: string, setupScript: Option<string>, setupCacheInputs: Option<seq<string>>, terminalHookScript: Option<string>,
    worktrees: seq<WorktreePatch>)

  datatype Patch = Patch(
    setupScript: Option<string>, setupCacheInputs: Option<seq<string>>, setupCacheHostInputs: Option<seq<string>>,
    allowedRoots: Option<seq<string>>, updateConfig: Option<string>, repositories: seq<RepositoryPatch>)

  /** A patch is applied to the stored document, or its keys are set in the body of a PUT. */
  datatype Mode = Direct | Keyed

  function WriteText(m: Mode, patch: Option<string>, current: Option<string>): Option<string> {
    if m.Direct? then KeepText(patch, current) else Kept(patch, current)
  }

  function WriteItems(m: Mode, patch: Option<seq<string>>, current: Option<seq<string>>): Option<seq<string>> {
    if m.Direct? then KeepItems(patch, current) else Kept(patch, current)
  }

  function PatchWorktree(m: Mode, wt: Worktree, p: WorktreePatch): Worktree {
    wt.(setupScript := WriteText(m, p.setupScript, wt.setupScript),
        setupCacheInputs := WriteItems(m, p.setupCacheInputs, wt.setupCacheInputs))
  }

  /** Patch the first worktree with the id; there must be one. */
  function PatchIn(m: Mode, ws: seq<Worktree>, p: WorktreePatch): Option<seq<Worktree>> {
    if ws == [] then None
    else if ws[0].id == p.id then Some([PatchWorktree(m, ws[0], p)] + ws[1..])
    else
      var rest := PatchIn(m, ws[1..], p);
      if rest.None? then None else Some([ws[0]] + rest.value)
  }

  function PatchWorktrees(m: Mode, ws: seq<Worktree>, ps: seq<WorktreePatch>): Option<seq<Worktree>>
    decreases ps
  {
    if ps == [] then Some(ws)
    else
      var first := PatchIn(m, ws, ps[0]);
      if first.None? then None else PatchWorktrees(m, first.value, ps[1..])
  }

  function PatchRepository(m: Mode, r: Repository, p: RepositoryPatch): Option<Repository> {
    var worktrees := PatchWorktrees(m, r.worktrees, p.worktrees);
    if worktrees.None? then None
    else
      Some(r.(setupScript := WriteText(m, p.setupScript, r.setupScript),
              setupCacheInputs := WriteItems(m, p.setupCacheInputs, r.setupCacheInputs),
              terminalHookScript := WriteText(m, p.terminalHookScript, r.terminalHookScript),
              worktrees := worktrees.value))
  }

  function PatchAmong(m: Mode, rs: seq<Repository>, p: RepositoryPatch): Option<seq<Repository>> {
    if rs == [] then None
    else if rs[0].id == p.id then
      var r := PatchRepository(m, rs[0], p);
      if r.None? then None else Some([r.value] + rs[1..])
    else
      var rest := PatchAmong(m, rs[1..], p);
      if rest.None? then None else Some([rs[0]] + rest.value)
  }

  function PatchRepositories(m: Mode, rs: seq<Repository>, ps: seq<RepositoryPatch>): Option<seq<Repository>>
    decreases ps
  {
    if ps == [] then Some(rs)
    else
      var first := PatchAmong(m, rs, ps[0]);
      if first.None? then None else PatchRepositories(m, first.value, ps[1..])
  }

  /** `None` stands for the error raised when the patch names an unknown repository or worktree. */
  function Write(m: Mode, d: Document, patch: Patch): Option<Document> {
    var repositories := PatchRepositories(m, d.repositories, patch.repositories);
    if repositories.None? then None
    else
      Some(d.(setupScript := WriteText(m, patch.setupScript, d.setupScript),
              setupCacheInputs := WriteItems(m, patch.setupCacheInputs, d.setupCacheInputs),
              setupCacheHostInputs := WriteItems(m, patch.setupCacheHostInputs, d.setupCacheHostInputs),
              allowedRoots := WriteItems(m, patch.allowedRoots, d.allowedRoots),
              updateConfig := Kept(patch.updateConfig, d.updateConfig),
              repositories := repositories.value))
  }

  /** `applyHostExecConfig`. */
  function Apply(existing: Document, patch: Patch): Option<Document> { Write(Direct, existing, patch) }

  /** The patch loop; an unknown repository or worktree stops it. */
  method ApplyHostExecConfig(existing: Document, patch: Patch) returns (next: Option<Document>)
    ensures next == Apply(existing, patch)
  {
    hide PatchAmong;
    var rs, ps := existing.repositories, patch.repositories;
    var i := 0;
    while i < |ps|
      invariant 0 <= i <= |ps|
      invariant PatchRepositories(Direct, rs, ps[i..]) == PatchRepositories(Direct, existing.repositories, ps)
    {
      var patched := PatchAmong(Direct, rs, ps[i]);
      assert ps[i..][0] == ps[i] && ps[i..][1..] == ps[i + 1..];
      if patched.None? {
        return None;
      }
      rs := patched.value;
      i := i + 1;
    }
    assert ps[i..] == [];
    next := Some(existing.(
      setupScript := KeepText(patch.setupScript, existing.setupScript),
      setupCacheInputs := KeepItems(patch.setupCacheInputs, existing.setupCacheInputs),
      setupCacheHostInputs := KeepItems(patch.setupCacheHostInputs, existing.setupCacheHostInputs),
      allowedRoots := KeepItems(patch.allowedRoots, existing.allowedRoots),
      updateConfig := if patch.updateConfig.Some? then patch.updateConfig else existing.updateConfig,
      repositories := rs));
  }

  // The ordinary part of a document: every executable key removed

  function StripWorktree(w: Worktree): Worktree { w.(setupScript := None, setupCacheInputs := None) }

  function StripWorktrees(ws: seq<Worktree>): seq<Worktree> {
    if ws == [] then [] else [StripWorktree(ws[0])] + StripWorktrees(ws[1..])
  }

  function StripRepository(r: Repository): Repository {
    r.(setupScript := None, setupCacheInputs := None, terminalHookScript := None, worktrees := StripWorktrees(r.worktrees))
  }

  function StripRepositories(rs: seq<Repository>): seq<Repository> {
    if rs == [] then [] else [StripRepository(rs[0])] + StripRepositories(rs[1..])
  }

  function Strip(d: Document): Document {
    d.(setupScript := None, setupCacheInputs := None, setupCacheHostInputs := None, allowedRoots := None, updateConfig := None,
       repositories := StripRepositories(d.repositories))
  }

  // Applying and restoring commute

  lemma WorktreeCommutes(previous: Option<Worktree>, wt: Worktree, p: WorktreePatch)
    ensures PreserveWorktree(previous, PatchWorktree(Keyed, wt, p)) == PatchWorktree(Direct, PreserveWorktree(previous, wt), p)
  {
  }

  ghost predicate SameWorktrees(previous: Option<Repository>, keyed: Option<seq<Worktree>>, direct: Option<seq<Worktree>>) {
    if keyed.None? then direct.None? else direct == Some(PreserveWorktrees(previous, keyed.value))
  }

  lemma {:induction false} PatchInCommutes(previous: Option<Repository>, ws: seq<Worktree>, p: WorktreePatch)
    ensures SameWorktrees(previous, PatchIn(Keyed, ws, p), PatchIn(Direct, PreserveWorktrees(previous, ws), p))
  {
    hide PatchWorktree, PreserveWorktree, StoredWorktree;
    if ws != [] {
      var stored := StoredWorktree(previous, ws[0].id);
      var head, tail := PreserveWorktree(stored, ws[0]), PreserveWorktrees(previous, ws[1..]);
      assert PreserveWorktrees(previous, ws) == [head] + tail;
      PreservedId(stored, ws[0]);
      if ws[0].id == p.id {
        PatchedId(Keyed, ws[0], p);
        WorktreeCommutes(stored, ws[0], p);
        assert ([PatchWorktree(Keyed, ws[0], p)] + ws[1..])[1..] == ws[1..];
      } else {
        PatchInCommutes(previous, ws[1..], p);
        var rest := PatchIn(Keyed, ws[1..], p);
        if rest.Some? {
          assert ([ws[0]] + rest.value)[1..] == rest.value;
        }
      }
    }
  }

  lemma PatchedId(m: Mode, wt: Worktree, p: WorktreePatch)
    ensures PatchWorktree(m, wt, p).id == wt.id
  {
  }

  lemma {:induction false} PatchWorktreesCommutes(previous: Option<Repository>, ws: seq<Worktree>, ps: seq<WorktreePatch>)
    ensures SameWorktrees(previous, PatchWorktrees(Keyed, ws, ps), PatchWorktrees(Direct, PreserveWorktrees(previous, ws), ps))
    decreases ps
  {
    hide PatchIn, PreserveWorktrees;
    if ps != [] {
      PatchInCommutes(previous, ws, ps[0]);
      var first := PatchIn(Keyed, ws, ps[0]);
      if first.Some? {
        PatchWorktreesCommutes(previous, first.value, ps[1..]);
      }
    }
  }

  lemma RepositoryCommutes(previous: Option<Repository>, r: Repository, p: RepositoryPatch)
    ensures var keyed, direct := PatchRepository(Keyed, r, p), PatchRepository(Direct, PreserveRepository(previous, r), p);
            if keyed.None? then direct.None? else direct == Some(PreserveRepository(previous, keyed.value))
  {
    hide PatchWorktrees, PreserveWorktrees;
    PatchWorktreesCommutes(previous, r.worktrees, p.worktrees);
  }

  ghost predicate SameRepositories(existing: Option<Document>, keyed: Option<seq<Repository>>, direct: Option<seq<Repository>>) {
    if keyed.None? then direct.None? else direct == Some(PreserveRepositories(existing, keyed.value))
  }

  lemma {:induction false} PatchAmongCommutes(existing: Option<Document>, rs: seq<Repository>, p: RepositoryPatch)
    ensures SameRepositories(existing, PatchAmong(Keyed, rs, p), PatchAmong(Direct, PreserveRepositories(existing, rs), p))
  {
    hide PatchRepository, PreserveRepository, StoredRepository;
    if rs != [] {
      var stored := StoredRepository(existing, rs[0].id);
      var head, tail := PreserveRepository(stored, rs[0]), PreserveRepositories(existing, rs[1..]);
      assert PreserveRepositories(existing, rs) == [head] + tail;
      PreservedRepositoryId(stored, rs[0]);
      if rs[0].id == p.id {
        PatchedRepositoryId(Keyed, rs[0], p);
        RepositoryCommutes(stored, rs[0], p);
        var patched := PatchRepository(Keyed, rs[0], p);
        if patched.Some? {
          assert ([patched.value] + rs[1..])[1..] == rs[1..];
        }
      } else {
        PatchAmongCommutes(existing, rs[1..], p);
        var rest := PatchAmong(Keyed, rs[1..], p);
        if rest.Some? {
          assert ([rs[0]] + rest.value)[1..] == rest.value;
        }
      }
    }
  }

  lemma PatchedRepositoryId(m: Mode, r: Repository, p: RepositoryPatch)
    ensures PatchRepository(m, r, p).Some? ==> PatchRepository(m, r, p).value.id == r.id
  {
  }

  lemma {:induction false} PatchRepositoriesCommutes(existing: Option<Document>, rs: seq<Repository>, ps: seq<RepositoryPatch>)
    ensures SameRepositories(existing, PatchRepositories(Keyed, rs, ps), PatchRepositories(Direct, PreserveRepositories(existing, rs), ps))
    decreases ps
  {
    hide PatchAmong, PreserveRepositories;
    if ps != [] {
      PatchAmongCommutes(existing, rs, ps[0]);
      var first := PatchAmong(Keyed, rs, ps[0]);
      if first.Some? {
        PatchRepositoriesCommutes(existing, first.value, ps[1..]);
      }
    }
  }

  // A stripped document is restored to what was stored

  lemma {:induction false} RestoreWorktrees(r: Repository, k: nat)
    requires k <= |r.worktrees| && DistinctWorktrees(r.worktrees)
    ensures PreserveWorktrees(Some(r), StripWorktrees(r.worktrees[k..])) == r.worktrees[k..]
    decreases |r.worktrees| - k
  {
    if k < |r.worktrees| {
      var ws := r.worktrees[k..];
      RestoreWorktrees(r, k + 1);
      assert ws[1..] == r.worktrees[k + 1..];
      FindWorktreeAt(r.worktrees, k);
      assert StripWorktrees(ws) == [StripWorktree(ws[0])] + StripWorktrees(ws[1..]);
      assert StripWorktrees(ws)[1..] == StripWorktrees(ws[1..]);
      assert PreserveWorktree(Some(ws[0]), StripWorktree(ws[0])) == ws[0];
      assert [ws[0]] + ws[1..] == ws;
    }
  }

  lemma FindWorktreeAt(ws: seq<Worktree>, k: nat)
    requires k < |ws| && DistinctWorktrees(ws)
    ensures FindWorktree(ws, ws[k].id) == Some(ws[k])
  {
    var w := FindWorktree(ws, ws[k].id).value;
    var j :| 0 <= j < |ws| && ws[j] == w;
  }

  ghost predicate WorktreesDistinct(rs: seq<Repository>) {
    forall i :: 0 <= i < |rs| ==> DistinctWorktrees(rs[i].worktrees)
  }

  lemma {:induction false} WorktreesOfDistinct(rs: seq<Repository>)
    requires DistinctWorktrees(AllWorktrees(rs))
    ensures WorktreesDistinct(rs)
  {
    if rs != [] {
      var tail := AllWorktrees(rs[1..]);
      var all := rs[0].worktrees + tail;
      assert DistinctWorktrees(tail) by {
        assert forall i :: 0 <= i < |tail| ==> tail[i] == all[|rs[0].worktrees| + i];
      }
      assert DistinctWorktrees(rs[0].worktrees) by {
        assert forall i :: 0 <= i < |rs[0].worktrees| ==> rs[0].worktrees[i] == all[i];
      }
      WorktreesOfDistinct(rs[1..]);
      assert forall i :: 0 < i < |rs| ==> rs[i] == rs[1..][i - 1];
    }
  }

  lemma {:induction false} RestoreRepositories(d: Document, k: nat)
    requires k <= |d.repositories| && DistinctRepositories(d.repositories) && WorktreesDistinct(d.repositories)
    ensures PreserveRepositories(Some(d), StripRepositories(d.repositories[k..])) == d.repositories[k..]
    decreases |d.repositories| - k
  {
    hide StripWorktrees, PreserveWorktrees;
    if k < |d.repositories| {
      var rs := d.repositories[k..];
      RestoreRepositories(d, k + 1);
      assert rs[1..] == d.repositories[k + 1..];
      FindDistinct(d.repositories, k);
      RestoreWorktrees(rs[0], 0);
      assert rs[0].worktrees[0..] == rs[0].worktrees;
      assert StripRepositories(rs) == [StripRepository(rs[0])] + StripRepositories(rs[1..]);
      assert StripRepositories(rs)[1..] == StripRepositories(rs[1..]);
      assert PreserveRepository(Some(rs[0]), StripRepository(rs[0])) == rs[0];
      assert [rs[0]] + rs[1..] == rs;
    }
  }

  /** A PUT that omits every executable key changes none of them. */
  lemma OmittedKeysSurvive(existing: Document)
    requires DistinctIds(existing)
    ensures Preserve(Strip(existing), Some(existing)) == existing
  {
    hide AllWorktrees, StripRepositories, PreserveRepositories;
    WorktreesOfDistinct(existing.repositories);
    RestoreRepositories(existing, 0);
    assert existing.repositories[0..] == existing.repositories;
  }

  /**
   * The two write paths agree: patching the stored document, and a PUT of the stripped document with the patch
   * keys set, fail on the same patches and otherwise leave the same document, up to empty roots being absent.
   */
  lemma TwoPathsAgree(existing: Document, patch: Patch)
    requires DistinctIds(existing)
    ensures var put, applied := Write(Keyed, Strip(existing), patch), Apply(existing, patch);
            && (put.None? <==> applied.None?)
            && (put.Some? ==>
                  var restored := Preserve(put.value, Some(existing));
                  && restored == applied.value.(allowedRoots := restored.allowedRoots)
                  && Items(restored.allowedRoots) == Items(applied.value.allowedRoots))
  {
    hide AllWorktrees, StripRepositories, PreserveRepositories, PatchRepositories;
    WorktreesOfDistinct(existing.repositories);
    RestoreRepositories(existing, 0);
    assert existing.repositories[0..] == existing.repositories;
    PatchRepositoriesCommutes(Some(existing), StripRepositories(existing.repositories), patch.repositories);
  }

  // Ordinary fields

  lemma {:induction false} PatchInOrdinary(ws: seq<Worktree>, p: WorktreePatch)
    ensures PatchIn(Direct, ws, p).Some? ==> StripWorktrees(PatchIn(Direct, ws, p).value) == StripWorktrees(ws)
  {
    if ws != [] && PatchIn(Direct, ws, p).Some? {
      var out := PatchIn(Direct, ws, p).value;
      if ws[0].id == p.id {
        assert out[1..] == ws[1..];
      } else {
        PatchInOrdinary(ws[1..], p);
        assert out[1..] == PatchIn(Direct, ws[1..], p).value;
      }
    }
  }

  lemma {:induction false} PatchWorktreesOrdinary(ws: seq<Worktree>, ps: seq<WorktreePatch>)
    ensures PatchWorktrees(Direct, ws, ps).Some? ==> StripWorktrees(PatchWorktrees(Direct, ws, ps).value) == StripWorktrees(ws)
    decreases ps
  {
    hide PatchIn, StripWorktrees;
    if ps != [] && PatchIn(Direct, ws, ps[0]).Some? {
      PatchInOrdinary(ws, ps[0]);
      PatchWorktreesOrdinary(PatchIn(Direct, ws, ps[0]).value, ps[1..]);
    }
  }

  lemma {:induction false} PatchAmongOrdinary(rs: seq<Repository>, p: RepositoryPatch)
    ensures PatchAmong(Direct, rs, p).Some? ==> StripRepositories(PatchAmong(Direct, rs, p).value) == StripRepositories(rs)
  {
    hide PatchWorktrees, StripWorktrees;
    if rs != [] && PatchAmong(Direct, rs, p).Some? {
      var out := PatchAmong(Direct, rs, p).value;
      if rs[0].id == p.id {
        PatchWorktreesOrdinary(rs[0].worktrees, p.worktrees);
        assert out[1..] == rs[1..];
      } else {
        PatchAmongOrdinary(rs[1..], p);
        assert out[1..] == PatchAmong(Direct, rs[1..], p).value;
      }
    }
  }

  lemma {:induction false} PatchRepositoriesOrdinary(rs: seq<Repository>, ps: seq<RepositoryPatch>)
    ensures PatchRepositories(Direct, rs, ps).Some? ==> StripRepositories(PatchRepositories(Direct, rs, ps).value) == StripRepositories(rs)
    decreases ps
  {
    hide PatchAmong, StripRepositories;
    if ps != [] && PatchAmong(Direct, rs, ps[0]).Some? {
      PatchAmongOrdinary(rs, ps[0]);
      PatchRepositoriesOrdinary(PatchAmong(Direct, rs, ps[0]).value, ps[1..]);
    }
  }

  /** A patch leaves everything that is not executable configuration as it was. */
  lemma PatchKeepsOrdinary(existing: Document, patch: Patch)
    ensures Apply(existing, patch).Some? ==> Strip(Apply(existing, patch).value) == Strip(existing)
  {
    hide PatchRepositories, StripRepositories;
    PatchRepositoriesOrdinary(existing.repositories, patch.repositories);
  }

  // Reported paths

  ghost predicate NamesWorktree(ps: seq<WorktreePatch>, w: string, script: bool) {
    exists k :: 0 <= k < |ps| && ps[k].id == w && (if script then ps[k].setupScript.Some? else ps[k].setupCacheInputs.Some?)
  }

  ghost predicate NamedIn(p: RepositoryPatch, path: Path) {
    match path
    case RepositoryScript(r) => p.id == r && p.setupScript.Some?
    case RepositoryCache(r) => p.id == r && p.setupCacheInputs.Some?
    case RepositoryHook(r) => p.id == r && p.terminalHookScript.Some?
    case WorktreeScript(r, w) => p.id == r && NamesWorktree(p.worktrees, w, true)
    case WorktreeCache(r, w) => p.id == r && NamesWorktree(p.worktrees, w, false)
    case _ => false
  }

  ghost predicate Named(patch: Patch, path: Path) {
    match path
    case HostScript => patch.setupScript.Some?
    case HostCache => patch.setupCacheInputs.Some?
    case HostFileCache => patch.setupCacheHostInputs.Some?
    case HostRoots => patch.allowedRoots.Some?
    case HostUpdate => patch.updateConfig.Some?
    case _ => exists k :: 0 <= k < |patch.repositories| && NamedIn(patch.repositories[k], path)
  }

  /** The two worktrees agree on everything that paths outside `script`/`cache` could report. */
  ghost predicate WorktreeAgrees(a: Option<Worktree>, b: Option<Worktree>, script: bool, cache: bool) {
    && (a.Some? <==> b.Some?)
    && (a.Some? ==> a.value.path == b.value.path)
    && (a.Some? && !script ==> a.value.setupScript == b.value.setupScript)
    && (a.Some? && !cache ==> a.value.setupCacheInputs == b.value.setupCacheInputs)
  }

  lemma {:induction false} PatchInAgrees(ws: seq<Worktree>, p: WorktreePatch, w: string)
    requires PatchIn(Direct, ws, p).Some?
    ensures WorktreeAgrees(LastWorktree(ws, w), LastWorktree(PatchIn(Direct, ws, p).value, w),
                           p.id == w && p.setupScript.Some?, p.id == w && p.setupCacheInputs.Some?)
  {
    var out := PatchIn(Direct, ws, p).value;
    if ws[0].id == p.id {
      assert out[1..] == ws[1..];
    } else {
      PatchInAgrees(ws[1..], p, w);
      assert out[1..] == PatchIn(Direct, ws[1..], p).value;
    }
  }

  lemma {:induction false} PatchWorktreesAgrees(ws: seq<Worktree>, ps: seq<WorktreePatch>, w: string)
    requires PatchWorktrees(Direct, ws, ps).Some?
    ensures WorktreeAgrees(LastWorktree(ws, w), LastWorktree(PatchWorktrees(Direct, ws, ps).value, w),
                           NamesWorktree(ps, w, true), NamesWorktree(ps, w, false))
    decreases ps
  {
    hide PatchIn, LastWorktree;
    if ps != [] {
      PatchInAgrees(ws, ps[0], w);
      PatchWorktreesAgrees(PatchIn(Direct, ws, ps[0]).value, ps[1..], w);
      NamesTail(ps, w, true);
      NamesTail(ps, w, false);
    }
  }

  lemma NamesTail(ps: seq<WorktreePatch>, w: string, script: bool)
    requires ps != []
    ensures NamesWorktree(ps[1..], w, script) ==> NamesWorktree(ps, w, script)
    ensures ps[0].id == w && (if script then ps[0].setupScript.Some? else ps[0].setupCacheInputs.Some?) ==> NamesWorktree(ps, w, script)
  {
    if NamesWorktree(ps[1..], w, script) {
      var k :| 0 <= k < |ps[1..]| && ps[1..][k].id == w && (if script then ps[1..][k].setupScript.Some? else ps[1..][k].setupCacheInputs.Some?);
      assert ps[k + 1] == ps[1..][k];
    }
  }

  /** The two repositories agree on every path that the patches do not name. */
  ghost predicate RepositoryAgrees(r: string, a: Option<Repository>, b: Option<Repository>, ps: seq<RepositoryPatch>) {
    && (a.Some? <==> b.Some?)
    && (a.Some? ==>
          && a.value.path == b.value.path
          && (a.value.setupScript == b.value.setupScript || AnyNames(ps, RepositoryScript(r)))
          && (a.value.setupCacheInputs == b.value.setupCacheInputs || AnyNames(ps, RepositoryCache(r)))
          && (a.value.terminalHookScript == b.value.terminalHookScript || AnyNames(ps, RepositoryHook(r)))
          && forall w :: WorktreeAgrees(LastWorktree(a.value.worktrees, w), LastWorktree(b.value.worktrees, w),
                                        AnyNames(ps, WorktreeScript(r, w)), AnyNames(ps, WorktreeCache(r, w))))
  }

  ghost predicate AnyNames(ps: seq<RepositoryPatch>, path: Path) {
    exists k :: 0 <= k < |ps| && NamedIn(ps[k], path)
  }

  lemma {:induction false} PatchAmongAgrees(rs: seq<Repository>, p: RepositoryPatch, r: string)
    requires PatchAmong(Direct, rs, p).Some?
    ensures RepositoryAgrees(r, LastRepository(rs, r), LastRepository(PatchAmong(Direct, rs, p).value, r), [p])
  {
    hide PatchRepository, NamedIn, AnyNames;
    var out := PatchAmong(Direct, rs, p).value;
    if rs[0].id == p.id {
      assert out[1..] == rs[1..];
      OneRepositoryAgrees(rs[0], p);
      PatchedRepositoryId(Direct, rs[0], p);
      if LastRepository(rs[1..], r).Some? {
        SelfAgrees(r, LastRepository(rs[1..], r), [p]);
      }
    } else {
      PatchAmongAgrees(rs[1..], p, r);
      assert out[1..] == PatchAmong(Direct, rs[1..], p).value;
      SelfAgrees(r, LastRepository(rs, r), [p]);
    }
  }

  lemma SelfAgrees(r: string, a: Option<Repository>, ps: seq<RepositoryPatch>)
    ensures RepositoryAgrees(r, a, a, ps)
  {
  }

  lemma OneRepositoryAgrees(a: Repository, p: RepositoryPatch)
    requires a.id == p.id && PatchRepository(Direct, a, p).Some?
    ensures RepositoryAgrees(a.id, Some(a), PatchRepository(Direct, a, p), [p])
  {
    hide PatchWorktrees, LastWorktree;
    var b := PatchRepository(Direct, a, p).value;
    assert forall path :: NamedIn([p][0], path) ==> AnyNames([p], path);
    assert p.setupScript.Some? ==> NamedIn([p][0], RepositoryScript(a.id));
    assert p.setupCacheInputs.Some? ==> NamedIn([p][0], RepositoryCache(a.id));
    assert p.terminalHookScript.Some? ==> NamedIn([p][0], RepositoryHook(a.id));
    forall w
      ensures WorktreeAgrees(LastWorktree(a.worktrees, w), LastWorktree(b.worktrees, w),
                             AnyNames([p], WorktreeScript(a.id, w)), AnyNames([p], WorktreeCache(a.id, w)))
    {
      PatchWorktreesAgrees(a.worktrees, p.worktrees, w);
      assert NamesWorktree(p.worktrees, w, true) ==> NamedIn([p][0], WorktreeScript(a.id, w));
      assert NamesWorktree(p.worktrees, w, false) ==> NamedIn([p][0], WorktreeCache(a.id, w));
    }
  }

  lemma AgreesChain(r: string, a: Option<Repository>, b: Option<Repository>, c: Option<Repository>, p: RepositoryPatch, ps: seq<RepositoryPatch>)
    requires RepositoryAgrees(r, a, b, [p]) && RepositoryAgrees(r, b, c, ps)
    ensures RepositoryAgrees(r, a, c, [p] + ps)
  {
    hide LastWorktree, NamedIn;
    forall path
      ensures AnyNames([p], path) || AnyNames(ps, path) ==> AnyNames([p] + ps, path)
    {
      AnyNamesConcat(p, ps, path);
    }
  }

  lemma AnyNamesConcat(p: RepositoryPatch, ps: seq<RepositoryPatch>, path: Path)
    ensures AnyNames([p], path) || AnyNames(ps, path) ==> AnyNames([p] + ps, path)
  {
    hide NamedIn;
    if AnyNames([p], path) {
      assert NamedIn(([p] + ps)[0], path);
    }
    if AnyNames(ps, path) {
      var k :| 0 <= k < |ps| && NamedIn(ps[k], path);
      assert NamedIn(([p] + ps)[k + 1], path);
    }
  }

  lemma {:induction false} PatchRepositoriesAgrees(rs: seq<Repository>, ps: seq<RepositoryPatch>, r: string)
    requires PatchRepositories(Direct, rs, ps).Some?
    ensures RepositoryAgrees(r, LastRepository(rs, r), LastRepository(PatchRepositories(Direct, rs, ps).value, r), ps)
    decreases ps
  {
    hide PatchAmong, LastRepository, RepositoryAgrees;
    if ps == [] {
      SelfAgrees(r, LastRepository(rs, r), ps);
    } else {
      var first := PatchAmong(Direct, rs, ps[0]).value;
      PatchAmongAgrees(rs, ps[0], r);
      PatchRepositoriesAgrees(first, ps[1..], r);
      AgreesChain(r, LastRepository(rs, r), LastRepository(first, r), LastRepository(PatchRepositories(Direct, rs, ps).value, r), ps[0], ps[1..]);
      assert [ps[0]] + ps[1..] == ps;
    }
  }

  /** Only paths the patch names are reported as edits. */
  lemma OnlyNamedPathsReported(existing: Document, patch: Patch, path: Path)
    requires Apply(existing, patch).Some? && Edited(Some(existing), Apply(existing, patch).value, path)
    ensures Named(patch, path)
  {
    hide PatchRepositories, LastRepository, LastWorktree, RepositoryAgrees, NamedIn, RepositoryTrusted, WorktreeTrusted;
    if IsRepositoryPath(path) {
      PatchRepositoriesAgrees(existing.repositories, patch.repositories, path.r);
      AgreementReported(existing, Apply(existing, patch).value, patch.repositories, path);
    }
  }

  lemma AgreementReported(existing: Document, applied: Document, ps: seq<RepositoryPatch>, path: Path)
    requires IsRepositoryPath(path) && Edited(Some(existing), applied, path)
    requires RepositoryAgrees(path.r, LastRepository(existing.repositories, path.r), LastRepository(applied.repositories, path.r), ps)
    ensures AnyNames(ps, path)
  {
    hide LastRepository, LastWorktree, AnyNames, RepositoryTrusted, WorktreeTrusted;
    if IsWorktreePath(path) && RepositoryIn(Some(existing), path.r).Some? {
      assert WorktreeAgrees(LastWorktree(RepositoryIn(Some(existing), path.r).value.worktrees, path.w),
                            LastWorktree(RepositoryIn(Some(applied), path.r).value.worktrees, path.w),
                            AnyNames(ps, WorktreeScript(path.r, path.w)), AnyNames(ps, WorktreeCache(path.r, path.w)));
    }
  }
}
