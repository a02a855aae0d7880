/** What a patch leaves under every key, by the last entry that names it (modules/shared/src/host-exec-config.ts). */
module ExecConfigPatchKeys {
  import opened Options
  import opened Inventory
  import opened ExecConfigWrite
  import opened ExecConfigPatch

  datatype Value = Text(text: string) | Items(items: seq<string>)

  datatype RepositoryKey = SetupKey | CacheKey | HookKey

  datatype HostKey = HostSetup | HostCache | HostInputs | HostRoots

  function OfText(t: Option<string>): Option<Value> { if t.Some? then Some(Text(t.value)) else None }

  function OfItems(t: Option<seq<string>>): Option<Value> { if t.Some? then Some(Items(t.value)) else None }

  /** An empty value removes its key. */
  function Clean(v: Value): Option<Value> { if v == Text("") || v == Items([]) then None else Some(v) }

  /** The value of a key after it was asked for, or left out. */
  function Settle(asked: Option<Value>, before: Option<Value>): Option<Value> {
    if asked.Some? then Clean(asked.value) else before
  }

  function InHost(d: Document, key: HostKey): Option<Value> {
    match key
    case HostSetup => OfText(d.setupScript)
    case HostCache => OfItems(d.setupCacheInputs)
    case HostInputs => OfItems(d.setupCacheHostInputs)
    case HostRoots => OfItems(d.allowedRoots)
  }

  function HostAsked(p: Patch, key: HostKey): Option<Value> {
    match key
    case HostSetup => OfText(p.setupScript)
    case HostCache => OfItems(p.setupCacheInputs)
    case HostInputs => OfItems(p.setupCacheHostInputs)
    case HostRoots => OfItems(p.allowedRoots)
  }

  function InRepository(r: Repository, key: RepositoryKey): Option<Value> {
    match key
    case SetupKey => OfText(r.setupScript)
    case CacheKey => OfItems(r.setupCacheInputs)
    case HookKey => OfText(r.terminalHookScript)
  }

  function RepositoryAsked(p: RepositoryPatch, key: RepositoryKey): Option<Value> {
    match key
    case SetupKey => OfText(p.setupScript)
    case CacheKey => OfItems(p.setupCacheInputs)
    case HookKey => OfText(p.terminalHookScript)
  }

  function InWorktree(w: Worktree, script: bool): Option<Value> {
    if script then OfText(w.setupScript) else OfItems(w.setupCacheInputs)
  }

  function WorktreeAsked(p: WorktreePatch, script: bool): Option<Value> {
    if script then OfText(p.setupScript) else OfItems(p.setupCacheInputs)
  }

  /** What the last entry for the worktree that names the key asks for. */
  ghost function LastForWorktree(ps: seq<WorktreePatch>, id: string, script: bool): Option<Value> {
    if ps == [] then None
    else
      var later := LastForWorktree(ps[1..], id, script);
      if later.Some? then later else if ps[0].id == id then WorktreeAsked(ps[0], script) else None
  }

  ghost function LastForRepository(ps: seq<RepositoryPatch>, id: string, key: RepositoryKey): Option<Value> {
    if ps == [] then None
    else
      var later := LastForRepository(ps[1..], id, key);
      if later.Some? then later else if ps[0].id == id then RepositoryAsked(ps[0], key) else None
  }

  /** All worktree entries that a patch holds for one repository, in order. */
  ghost function WorktreeEntries(ps: seq<RepositoryPatch>, id: string): seq<WorktreePatch> {
    if ps == [] then []
    else (if ps[0].id == id then ps[0].worktrees else []) + WorktreeEntries(ps[1..], id)
  }

  ghost predicate FirstWorktree(ws: seq<Worktree>, k: int) {
    0 <= k < |ws| && forall j :: 0 <= j < k ==> ws[j].id != ws[k].id
  }

  ghost predicate FirstRepository(rs: seq<Repository>, k: int) {
    0 <= k < |rs| && forall j :: 0 <= j < k ==> rs[j].id != rs[k].id
  }

  ghost predicate HasWorktree(ws: seq<Worktree>, id: string) { exists k :: 0 <= k < |ws| && ws[k].id == id }

  // Worktrees

  ghost predicate SameWorktreeIds(ws: seq<Worktree>, out: seq<Worktree>) {
    |out| == |ws| && forall k :: 0 <= k < |ws| ==> out[k].id == ws[k].id
  }

  lemma {:induction false} PatchInAt(ws: seq<Worktree>, p: WorktreePatch)
    ensures PatchIn(Direct, ws, p).Some? <==> HasWorktree(ws, p.id)
    ensures PatchIn(Direct, ws, p).Some? ==>
              var out := PatchIn(Direct, ws, p).value;
              && SameWorktreeIds(ws, out)
              && forall k :: 0 <= k < |ws| ==>
                   if ws[k].id == p.id && FirstWorktree(ws, k)
                   then forall script :: InWorktree(out[k], script) == Settle(WorktreeAsked(p, script), InWorktree(ws[k], script))
                   else out[k] == ws[k]
  {
    if ws != [] && ws[0].id != p.id {
      var rest := ws[1..];
      PatchInAt(rest, p);
      assert forall k :: 0 <= k < |rest| ==> rest[k] == ws[k + 1];
      if k :| 0 <= k < |ws| && ws[k].id == p.id {
        assert rest[k - 1].id == p.id;
      }
      forall k | 1 <= k < |ws| && ws[k].id == p.id
        ensures FirstWorktree(ws, k) <==> FirstWorktree(rest, k - 1)
      {
        assert FirstWorktree(rest, k - 1) ==> forall j :: 1 <= j < k ==> ws[j] == rest[j - 1] && ws[j].id != ws[k].id;
      }
    }
  }

  /** A worktree holds, under each key, what the last entry naming it asked for; entries with a repeated id stay as they are. */
  lemma {:induction false} WorktreeKeys(ws: seq<Worktree>, ps: seq<WorktreePatch>, k: nat, script: bool)
    requires k < |ws| && PatchWorktrees(Direct, ws, ps).Some?
    ensures var out := PatchWorktrees(Direct, ws, ps).value;
            && SameWorktreeIds(ws, out)
            && (FirstWorktree(ws, k) ==> InWorktree(out[k], script) == Settle(LastForWorktree(ps, ws[k].id, script), InWorktree(ws[k], script)))
            && (!FirstWorktree(ws, k) ==> out[k] == ws[k])
    decreases ps
  {
    hide PatchIn, InWorktree, WorktreeAsked;
    if ps != [] {
      PatchInAt(ws, ps[0]);
      var mid := PatchIn(Direct, ws, ps[0]).value;
      WorktreeKeys(mid, ps[1..], k, script);
      assert FirstWorktree(mid, k) <==> FirstWorktree(ws, k);
    }
  }

  lemma {:induction false} WorktreesAccepted(ws: seq<Worktree>, ps: seq<WorktreePatch>)
    ensures PatchWorktrees(Direct, ws, ps).Some? <==> forall i :: 0 <= i < |ps| ==> HasWorktree(ws, ps[i].id)
    ensures PatchWorktrees(Direct, ws, ps).Some? ==> SameWorktreeIds(ws, PatchWorktrees(Direct, ws, ps).value)
    decreases ps
  {
    hide PatchIn;
    if ps != [] {
      PatchInAt(ws, ps[0]);
      var first := PatchIn(Direct, ws, ps[0]);
      if first.Some? {
        WorktreesAccepted(first.value, ps[1..]);
        SameIdsHave(ws, first.value);
        assert forall i :: 0 <= i < |ps[1..]| ==> ps[1..][i] == ps[i + 1];
        assert forall i :: 1 <= i < |ps| ==> ps[i] == ps[1..][i - 1];
      }
    }
  }

  lemma SameIdsHave(ws: seq<Worktree>, out: seq<Worktree>)
    requires SameWorktreeIds(ws, out)
    ensures forall id :: HasWorktree(ws, id) <==> HasWorktree(out, id)
  {
    forall id
      ensures HasWorktree(ws, id) <==> HasWorktree(out, id)
    {
      if k :| 0 <= k < |ws| && ws[k].id == id { assert out[k].id == id; }
      if k :| 0 <= k < |out| && out[k].id == id { assert ws[k].id == id; }
    }
  }

  lemma {:induction false} PatchWorktreesConcat(ws: seq<Worktree>, a: seq<WorktreePatch>, b: seq<WorktreePatch>)
    requires PatchWorktrees(Direct, ws, a).Some?
    ensures PatchWorktrees(Direct, ws, a + b) == PatchWorktrees(Direct, PatchWorktrees(Direct, ws, a).value, b)
    decreases a
  {
    hide PatchIn;
    if a == [] {
      assert a + b == b;
    } else {
      PatchWorktreesConcat(PatchIn(Direct, ws, a[0]).value, a[1..], b);
      assert (a + b)[1..] == a[1..] + b;
    }
  }

  // Repositories

  ghost predicate SameRepositoryIds(rs: seq<Repository>, out: seq<Repository>) {
    |out| == |rs| && forall k :: 0 <= k < |rs| ==> out[k].id == rs[k].id
  }

  /** One entry changes one repository: its keys as asked, its worktrees by the entry's own entries. */
  ghost predicate Patched(r: Repository, out: Repository, p: RepositoryPatch) {
    && out.id == r.id
    && (forall key :: InRepository(out, key) == Settle(RepositoryAsked(p, key), InRepository(r, key)))
    && PatchWorktrees(Direct, r.worktrees, p.worktrees) == Some(out.worktrees)
  }

  lemma PatchedRepository(r: Repository, p: RepositoryPatch)
    ensures PatchRepository(Direct, r, p).Some? <==> PatchWorktrees(Direct, r.worktrees, p.worktrees).Some?
    ensures PatchRepository(Direct, r, p).Some? ==> Patched(r, PatchRepository(Direct, r, p).value, p)
  {
    hide PatchWorktrees;
  }

  /** The entry's repository is there, and so are all worktrees it names. */
  ghost predicate Known(rs: seq<Repository>, p: RepositoryPatch) {
    exists k :: FirstRepository(rs, k) && rs[k].id == p.id
                && forall i :: 0 <= i < |p.worktrees| ==> HasWorktree(rs[k].worktrees, p.worktrees[i].id)
  }

  /** An entry's place among the later ones. */
  lemma LaterFirst(rs: seq<Repository>, id: string)
    requires rs != [] && rs[0].id != id
    ensures forall k :: 1 <= k < |rs| && rs[k].id == id ==> (FirstRepository(rs, k) <==> FirstRepository(rs[1..], k - 1))
  {
    var rest := rs[1..];
    forall k | 1 <= k < |rs| && rs[k].id == id
      ensures FirstRepository(rs, k) <==> FirstRepository(rest, k - 1)
    {
      assert FirstRepository(rest, k - 1) ==> forall j :: 1 <= j < k ==> rs[j] == rest[j - 1] && rs[j].id != rs[k].id;
      assert FirstRepository(rs, k) ==> forall j :: 0 <= j < k - 1 ==> rest[j] == rs[j + 1] && rest[j].id != rest[k - 1].id;
    }
  }

  lemma {:induction false} PatchAmongAccepts(rs: seq<Repository>, p: RepositoryPatch)
    ensures PatchAmong(Direct, rs, p).Some? <==>
            exists k :: FirstRepository(rs, k) && rs[k].id == p.id && PatchRepository(Direct, rs[k], p).Some?
  {
    hide PatchRepository;
    if rs != [] {
      if rs[0].id == p.id {
        assert FirstRepository(rs, 0);
        assert forall k :: FirstRepository(rs, k) && rs[k].id == p.id ==> k == 0;
      } else {
        var rest := rs[1..];
        PatchAmongAccepts(rest, p);
        LaterFirst(rs, p.id);
        if k :| FirstRepository(rs, k) && rs[k].id == p.id && PatchRepository(Direct, rs[k], p).Some? {
          assert FirstRepository(rest, k - 1) && rest[k - 1] == rs[k];
        }
        if k :| FirstRepository(rest, k) && rest[k].id == p.id && PatchRepository(Direct, rest[k], p).Some? {
          assert rs[k + 1] == rest[k] && FirstRepository(rs, k + 1);
        }
      }
    }
  }

  lemma {:induction false} PatchAmongAt(rs: seq<Repository>, p: RepositoryPatch)
    requires PatchAmong(Direct, rs, p).Some?
    ensures var out := PatchAmong(Direct, rs, p).value;
            && SameRepositoryIds(rs, out)
            && forall k :: 0 <= k < |rs| ==>
                 if rs[k].id == p.id && FirstRepository(rs, k) then Patched(rs[k], out[k], p) else out[k] == rs[k]
  {
    hide PatchRepository, Patched;
    var out := PatchAmong(Direct, rs, p).value;
    if rs[0].id == p.id {
      PatchedRepository(rs[0], p);
      PatchedRepositoryId(Direct, rs[0], p);
      assert forall k :: 1 <= k < |rs| ==> out[k] == rs[k] && !(rs[k].id == p.id && FirstRepository(rs, k));
    } else {
      PatchAmongAt(rs[1..], p);
      LaterFirst(rs, p.id);
      var rest := PatchAmong(Direct, rs[1..], p).value;
      hide FirstRepository, PatchAmong;
      assert forall k :: 1 <= k < |rs| ==> rs[k] == rs[1..][k - 1] && out[k] == rest[k - 1];
    }
  }

  lemma AmongAccepted(rs: seq<Repository>, p: RepositoryPatch)
    ensures PatchAmong(Direct, rs, p).Some? <==> Known(rs, p)
  {
    hide PatchAmong, PatchRepository, PatchWorktrees;
    PatchAmongAccepts(rs, p);
    forall k | FirstRepository(rs, k) && rs[k].id == p.id
      ensures PatchRepository(Direct, rs[k], p).Some? <==>
              forall i :: 0 <= i < |p.worktrees| ==> HasWorktree(rs[k].worktrees, p.worktrees[i].id)
    {
      PatchedRepository(rs[k], p);
      WorktreesAccepted(rs[k].worktrees, p.worktrees);
    }
  }

  ghost predicate SameIds(rs: seq<Repository>, out: seq<Repository>) {
    SameRepositoryIds(rs, out) && forall k :: 0 <= k < |rs| ==> SameWorktreeIds(rs[k].worktrees, out[k].worktrees)
  }

  lemma AmongKeepsIds(rs: seq<Repository>, p: RepositoryPatch)
    requires PatchAmong(Direct, rs, p).Some?
    ensures SameIds(rs, PatchAmong(Direct, rs, p).value)
  {
    hide PatchAmong, PatchWorktrees;
    PatchAmongAt(rs, p);
    forall k | 0 <= k < |rs|
      ensures SameWorktreeIds(rs[k].worktrees, PatchAmong(Direct, rs, p).value[k].worktrees)
    {
      WorktreesAccepted(rs[k].worktrees, p.worktrees);
    }
  }

  lemma KnownStable(rs: seq<Repository>, out: seq<Repository>, p: RepositoryPatch)
    requires SameIds(rs, out)
    ensures Known(rs, p) <==> Known(out, p)
  {
    forall k | 0 <= k < |rs|
      ensures FirstRepository(rs, k) <==> FirstRepository(out, k)
      ensures forall id :: HasWorktree(rs[k].worktrees, id) <==> HasWorktree(out[k].worktrees, id)
    {
      SameIdsHave(rs[k].worktrees, out[k].worktrees);
    }
    hide HasWorktree, SameIds, FirstRepository;
    if Known(rs, p) {
      var k :| FirstRepository(rs, k) && rs[k].id == p.id && forall i :: 0 <= i < |p.worktrees| ==> HasWorktree(rs[k].worktrees, p.worktrees[i].id);
      assert SameIds(rs, out) && 0 <= k < |rs| by { InBounds(rs, k); }
      assert FirstRepository(out, k) && out[k].id == p.id by { SameAt(rs, out, k); }
    }
    if Known(out, p) {
      var k :| FirstRepository(out, k) && out[k].id == p.id && forall i :: 0 <= i < |p.worktrees| ==> HasWorktree(out[k].worktrees, p.worktrees[i].id);
      InBounds(out, k);
      SameAt(rs, out, k);
    }
  }

  lemma InBounds(rs: seq<Repository>, k: int)
    requires FirstRepository(rs, k)
    ensures 0 <= k < |rs|
  {
  }

  lemma SameAt(rs: seq<Repository>, out: seq<Repository>, k: nat)
    requires SameIds(rs, out) && (k < |rs| || k < |out|)
    ensures k < |rs| && k < |out| && out[k].id == rs[k].id && (FirstRepository(out, k) <==> FirstRepository(rs, k))
  {
  }

  lemma {:induction false} RepositoriesAccepted(rs: seq<Repository>, ps: seq<RepositoryPatch>)
    ensures PatchRepositories(Direct, rs, ps).Some? <==> forall i :: 0 <= i < |ps| ==> Known(rs, ps[i])
    decreases ps
  {
    hide PatchAmong, Known, SameIds;
    if ps != [] {
      AmongAccepted(rs, ps[0]);
      var first := PatchAmong(Direct, rs, ps[0]);
      if first.Some? {
        RepositoriesAccepted(first.value, ps[1..]);
        AmongKeepsIds(rs, ps[0]);
        forall i | 0 <= i < |ps|
          ensures Known(rs, ps[i]) <==> Known(first.value, ps[i])
        {
          KnownStable(rs, first.value, ps[i]);
        }
        assert forall i :: 0 <= i < |ps[1..]| ==> ps[1..][i] == ps[i + 1];
        assert forall i :: 1 <= i < |ps| ==> ps[i] == ps[1..][i - 1];
      }
    }
  }

  /** What all entries together make of the repository at `k`. */
  ghost predicate Settled(r: Repository, out: Repository, ps: seq<RepositoryPatch>) {
    && out.id == r.id
    && (forall key :: InRepository(out, key) == Settle(LastForRepository(ps, r.id, key), InRepository(r, key)))
    && PatchWorktrees(Direct, r.worktrees, WorktreeEntries(ps, r.id)) == Some(out.worktrees)
  }

  lemma SettledStep(r: Repository, mid: Repository, out: Repository, ps: seq<RepositoryPatch>)
    requires ps != [] && Settled(mid, out, ps[1..])
    requires if ps[0].id == r.id then Patched(r, mid, ps[0]) else mid == r
    ensures Settled(r, out, ps)
  {
    hide PatchWorktrees, RepositoryAsked, InRepository;
    var later := WorktreeEntries(ps[1..], r.id);
    if ps[0].id == r.id {
      PatchWorktreesConcat(r.worktrees, ps[0].worktrees, later);
    } else {
      assert [] + later == later;
    }
  }

  lemma {:induction false} RepositoryKeys(rs: seq<Repository>, ps: seq<RepositoryPatch>, k: nat)
    requires k < |rs| && PatchRepositories(Direct, rs, ps).Some?
    ensures var out := PatchRepositories(Direct, rs, ps).value;
            && |out| == |rs|
            && (FirstRepository(rs, k) ==> Settled(rs[k], out[k], ps))
            && (!FirstRepository(rs, k) ==> out[k] == rs[k])
    decreases ps
  {
    hide PatchAmong, Settled, Patched;
    if ps == [] {
      assert Settled(rs[k], rs[k], ps) by { NothingSettled(rs[k]); }
    } else {
      PatchAmongAt(rs, ps[0]);
      var mid := PatchAmong(Direct, rs, ps[0]).value;
      RepositoryKeys(mid, ps[1..], k);
      assert FirstRepository(mid, k) <==> FirstRepository(rs, k);
      if FirstRepository(rs, k) {
        SettledStep(rs[k], mid[k], PatchRepositories(Direct, rs, ps).value[k], ps);
      }
    }
  }

  lemma NothingSettled(r: Repository)
    ensures Settled(r, r, [])
  {
  }

  // The whole document

  /** A worktree of a patched repository. */
  ghost predicate WorktreeSettled(r: Repository, out: Repository, ps: seq<RepositoryPatch>, l: nat, script: bool)
    requires l < |r.worktrees|
  {
    && l < |out.worktrees| && out.worktrees[l].id == r.worktrees[l].id
    && (if FirstWorktree(r.worktrees, l)
        then InWorktree(out.worktrees[l], script) ==
             Settle(LastForWorktree(WorktreeEntries(ps, r.id), r.worktrees[l].id, script), InWorktree(r.worktrees[l], script))
        else out.worktrees[l] == r.worktrees[l])
  }

  /** A patch is refused exactly when an entry names a repository, or a worktree of it, that is not there. */
  lemma PatchAcceptedIff(existing: Document, patch: Patch)
    ensures Apply(existing, patch).Some? <==>
            forall i :: 0 <= i < |patch.repositories| ==> Known(existing.repositories, patch.repositories[i])
  {
    hide PatchRepositories, Known;
    RepositoriesAccepted(existing.repositories, patch.repositories);
  }

  /**
   * Under every key of the host, of a repository and of a worktree the document then holds what the last entry
   * naming the key asked for, nothing if that was empty, and what it held before if no entry names it.
   */
  lemma PatchSets(existing: Document, patch: Patch)
    requires Apply(existing, patch).Some?
    ensures var rs, next, ps := existing.repositories, Apply(existing, patch).value, patch.repositories;
            && (forall key :: InHost(next, key) == Settle(HostAsked(patch, key), InHost(existing, key)))
            && next.updateConfig == (if patch.updateConfig.Some? then patch.updateConfig else existing.updateConfig)
            && |next.repositories| == |rs|
            && (forall k :: 0 <= k < |rs| && !FirstRepository(rs, k) ==> next.repositories[k] == rs[k])
            && (forall k, key :: FirstRepository(rs, k) ==>
                  InRepository(next.repositories[k], key) == Settle(LastForRepository(ps, rs[k].id, key), InRepository(rs[k], key)))
            && (forall k, l, script :: FirstRepository(rs, k) && 0 <= l < |rs[k].worktrees| ==>
                  WorktreeSettled(rs[k], next.repositories[k], ps, l, script))
  {
    hide PatchRepositories, PatchWorktrees;
    var rs, next, ps := existing.repositories, Apply(existing, patch).value, patch.repositories;
    forall k | 0 <= k < |rs|
      ensures |next.repositories| == |rs|
      ensures !FirstRepository(rs, k) ==> next.repositories[k] == rs[k]
      ensures FirstRepository(rs, k) ==> Settled(rs[k], next.repositories[k], ps)
    {
      RepositoryKeys(rs, ps, k);
    }
    assert |next.repositories| == |rs| by { RepositoryCount(rs, ps); }
    hide FirstRepository, WorktreeSettled, InRepository, Settle, LastForRepository;
    forall k, l, script | FirstRepository(rs, k) && 0 <= k < |rs| && 0 <= l < |rs[k].worktrees|
      ensures WorktreeSettled(rs[k], next.repositories[k], ps, l, script)
    {
      WorktreeIsSettled(rs[k], next.repositories[k], ps, l, script);
    }
  }

  lemma {:induction false} RepositoryCount(rs: seq<Repository>, ps: seq<RepositoryPatch>)
    requires PatchRepositories(Direct, rs, ps).Some?
    ensures |PatchRepositories(Direct, rs, ps).value| == |rs|
    decreases ps
  {
    hide PatchAmong;
    if ps != [] {
      PatchAmongAt(rs, ps[0]);
      RepositoryCount(PatchAmong(Direct, rs, ps[0]).value, ps[1..]);
    }
  }

  lemma WorktreeIsSettled(r: Repository, out: Repository, ps: seq<RepositoryPatch>, l: nat, script: bool)
    requires Settled(r, out, ps) && l < |r.worktrees|
    ensures WorktreeSettled(r, out, ps, l, script)
  {
    hide PatchWorktrees, InRepository, LastForRepository;
    WorktreeKeys(r.worktrees, WorktreeEntries(ps, r.id), l, script);
  }

  // A PUT: omitted keys come from the stored entry with the same id

  function StoredInRepository(r: Option<Repository>, key: RepositoryKey): Option<Value> {
    if r.Some? then InRepository(r.value, key) else None
  }

  function StoredInWorktree(w: Option<Worktree>, script: bool): Option<Value> {
    if w.Some? then InWorktree(w.value, script) else None
  }

  lemma {:induction false} PreservedWorktreeAt(previous: Option<Repository>, ws: seq<Worktree>, l: nat)
    requires l < |ws|
    ensures var out, stored := PreserveWorktrees(previous, ws), if previous.Some? then FindWorktree(previous.value.worktrees, ws[l].id) else None;
            && |out| == |ws|
            && forall script :: InWorktree(out[l], script) == Settle(InWorktree(ws[l], script), StoredInWorktree(stored, script))
  {
    if l > 0 {
      PreservedWorktreeAt(previous, ws[1..], l - 1);
    } else if |ws| > 1 {
      PreservedWorktreeAt(previous, ws[1..], 0);
    }
  }

  /** What a PUT makes of one repository. */
  ghost predicate Preserved(stored: Option<Repository>, r: Repository, out: Repository) {
    && (forall key :: InRepository(out, key) == Settle(InRepository(r, key), StoredInRepository(stored, key)))
    && |out.worktrees| == |r.worktrees|
    && (forall l, script :: 0 <= l < |r.worktrees| ==>
          InWorktree(out.worktrees[l], script) ==
          Settle(InWorktree(r.worktrees[l], script),
                 StoredInWorktree(if stored.Some? then FindWorktree(stored.value.worktrees, r.worktrees[l].id) else None, script)))
  }

  lemma PreservedOne(stored: Option<Repository>, r: Repository)
    ensures Preserved(stored, r, PreserveRepository(stored, r))
  {
    hide PreserveWorktrees;
    var out := PreserveRepository(stored, r);
    forall l | 0 <= l < |r.worktrees|
      ensures |out.worktrees| == |r.worktrees|
      ensures forall script :: InWorktree(out.worktrees[l], script) ==
                               Settle(InWorktree(r.worktrees[l], script),
                                      StoredInWorktree(if stored.Some? then FindWorktree(stored.value.worktrees, r.worktrees[l].id) else None, script))
    {
      PreservedWorktreeAt(stored, r.worktrees, l);
    }
    if r.worktrees == [] {
      NothingPreserved(stored, None);
    } else {
      PreservedWorktreeAt(stored, r.worktrees, 0);
    }
  }

  lemma {:induction false} PreservedAt(existing: Option<Document>, rs: seq<Repository>, k: nat)
    requires k < |rs|
    ensures |PreserveRepositories(existing, rs)| == |rs|
    ensures Preserved(if existing.Some? then FindRepository(existing.value.repositories, rs[k].id) else None, rs[k], PreserveRepositories(existing, rs)[k])
  {
    hide Preserved, PreserveRepository;
    PreservedOne(StoredRepository(existing, rs[0].id), rs[0]);
    if k > 0 {
      PreservedAt(existing, rs[1..], k - 1);
    } else if |rs| > 1 {
      PreservedAt(existing, rs[1..], 0);
    }
  }

  /**
   * A PUT keeps what it says, removes what it says empty, and takes what it omits from the stored host, repository
   * or worktree with the same id. Roots and update settings that it gives are taken as they are.
   */
  lemma PutSets(incoming: Document, existing: Option<Document>)
    ensures var next := Preserve(incoming, existing);
            && (forall key :: key != HostRoots ==>
                  InHost(next, key) == Settle(InHost(incoming, key), if existing.Some? then InHost(existing.value, key) else None))
            && (incoming.allowedRoots.Some? ==> next.allowedRoots == incoming.allowedRoots)
            && (incoming.updateConfig.Some? ==> next.updateConfig == incoming.updateConfig)
            && (incoming.allowedRoots.None? ==> next.allowedRoots == if existing.Some? then existing.value.allowedRoots else None)
            && (incoming.updateConfig.None? ==> next.updateConfig == if existing.Some? then existing.value.updateConfig else None)
            && |next.repositories| == |incoming.repositories|
            && forall k :: 0 <= k < |incoming.repositories| ==>
                 Preserved(if existing.Some? then FindRepository(existing.value.repositories, incoming.repositories[k].id) else None,
                           incoming.repositories[k], next.repositories[k])
  {
    hide PreserveRepositories, Preserved;
    forall k | 0 <= k < |incoming.repositories|
      ensures |Preserve(incoming, existing).repositories| == |incoming.repositories|
      ensures Preserved(if existing.Some? then FindRepository(existing.value.repositories, incoming.repositories[k].id) else None,
                        incoming.repositories[k], Preserve(incoming, existing).repositories[k])
    {
      PreservedAt(existing, incoming.repositories, k);
    }
    if incoming.repositories == [] {
      NothingPreserved(None, existing);
    } else {
      PreservedAt(existing, incoming.repositories, 0);
    }
  }

  lemma {:induction false} StripPreservedWorktrees(previous: Option<Repository>, ws: seq<Worktree>)
    ensures StripWorktrees(PreserveWorktrees(previous, ws)) == StripWorktrees(ws)
  {
    if ws != [] {
      StripPreservedWorktrees(previous, ws[1..]);
      var head := PreserveWorktree(StoredWorktree(previous, ws[0].id), ws[0]);
      assert ([head] + PreserveWorktrees(previous, ws[1..]))[1..] == PreserveWorktrees(previous, ws[1..]);
    }
  }

  lemma {:induction false} StripPreservedRepositories(existing: Option<Document>, rs: seq<Repository>)
    ensures StripRepositories(PreserveRepositories(existing, rs)) == StripRepositories(rs)
  {
    hide PreserveWorktrees, StripWorktrees;
    if rs != [] {
      StripPreservedRepositories(existing, rs[1..]);
      var stored := StoredRepository(existing, rs[0].id);
      StripPreservedWorktrees(stored, rs[0].worktrees);
      var head := PreserveRepository(stored, rs[0]);
      assert ([head] + PreserveRepositories(existing, rs[1..]))[1..] == PreserveRepositories(existing, rs[1..]);
    }
  }

  /** Nothing but executable keys is restored. */
  lemma PutKeepsOrdinary(incoming: Document, existing: Option<Document>)
    ensures Strip(Preserve(incoming, existing)) == Strip(incoming)
  {
    hide PreserveRepositories, StripRepositories;
    StripPreservedRepositories(existing, incoming.repositories);
  }
}
