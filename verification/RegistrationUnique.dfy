/** Registration keeps worktrees unique host-wide and drops none it does not replace. */
module RegistrationUnique {
  import opened Options
  import opened Inventory
  import opened Registration

  ghost predicate Apart(a: Worktree, b: Worktree) {
    a.id != b.id && a.name != b.name && a.path != b.path
  }

  /** Ids, names and paths are pairwise different. */
  ghost predicate Unique(ws: seq<Worktree>) {
    forall i, j :: 0 <= i < j < |ws| ==> Apart(ws[i], ws[j])
  }

  ghost predicate AllApart(xs: seq<Worktree>, ys: seq<Worktree>) {
    forall i, j :: 0 <= i < |xs| && 0 <= j < |ys| ==> Apart(xs[i], ys[j])
  }

  ghost predicate UniqueAdvertised(adv: seq<Advertised>) {
    forall i, j :: 0 <= i < j < |adv| ==>
      adv[i].id != adv[j].id && adv[i].name != adv[j].name && adv[i].path != adv[j].path
  }

  ghost predicate DistinctRegistered(registered: seq<Registered>) {
    forall i, j :: 0 <= i < j < |registered| ==> registered[i].id != registered[j].id
  }

  lemma UniqueConcat(xs: seq<Worktree>, ys: seq<Worktree>)
    requires Unique(xs) && Unique(ys) && AllApart(xs, ys)
    ensures Unique(xs + ys)
  {
    hide Apart;
    var all := xs + ys;
    forall i, j | 0 <= i < j < |all|
      ensures Apart(all[i], all[j])
    {
      if j < |xs| {
        assert all[i] == xs[i] && all[j] == xs[j];
      } else if i >= |xs| {
        assert all[i] == ys[i - |xs|] && all[j] == ys[j - |xs|];
      } else {
        assert all[i] == xs[i] && all[j] == ys[j - |xs|];
      }
    }
  }

  predicate Same(w: Worktree, a: Advertised) { w.id == a.id && w.name == a.name && w.path == a.path }

  /** The worktree is advertised for one of these repositories. */
  ghost predicate FromAdvertised(w: Worktree, adv: seq<Advertised>, repos: set<string>) {
    exists i :: 0 <= i < |adv| && adv[i].repositoryId in repos && Same(w, adv[i])
  }

  ghost predicate InRepositories(w: Worktree, prev: seq<Repository>, repos: set<string>) {
    exists i :: 0 <= i < |prev| && prev[i].id in repos && w in prev[i].worktrees
  }

  /** The worktree was configured in one of these repositories and no advertisement matches it. */
  ghost predicate Retained(w: Worktree, prev: seq<Repository>, adv: seq<Advertised>, repos: set<string>) {
    !Matched(w, adv) && InRepositories(w, prev, repos)
  }

  ghost predicate Origin(w: Worktree, prev: seq<Repository>, adv: seq<Advertised>, repos: set<string>) {
    FromAdvertised(w, adv, repos) || Retained(w, prev, adv, repos)
  }

  ghost predicate PreviousUnique(prev: seq<Repository>) {
    && DistinctRepositories(prev)
    && (forall i :: 0 <= i < |prev| ==> Unique(prev[i].worktrees))
    && (forall i, j :: 0 <= i < j < |prev| ==> AllApart(prev[i].worktrees, prev[j].worktrees))
  }

  lemma AcrossRepositories(prev: seq<Repository>, i: nat, j: nat, v: Worktree, w: Worktree)
    requires PreviousUnique(prev) && i < |prev| && j < |prev| && i != j
    requires v in prev[i].worktrees && w in prev[j].worktrees
    ensures Apart(v, w)
  {
    var k :| 0 <= k < |prev[i].worktrees| && prev[i].worktrees[k] == v;
    var l :| 0 <= l < |prev[j].worktrees| && prev[j].worktrees[l] == w;
    if i < j {
      assert AllApart(prev[i].worktrees, prev[j].worktrees);
      assert Apart(prev[i].worktrees[k], prev[j].worktrees[l]);
    } else {
      assert AllApart(prev[j].worktrees, prev[i].worktrees);
      assert Apart(prev[j].worktrees[l], prev[i].worktrees[k]);
    }
  }

  /** Worktrees that come from disjoint sets of repositories never clash. */
  lemma OriginsApart(v: Worktree, w: Worktree, prev: seq<Repository>, adv: seq<Advertised>, rv: set<string>, rw: set<string>)
    requires UniqueAdvertised(adv) && PreviousUnique(prev) && rv !! rw
    requires Origin(v, prev, adv, rv) && Origin(w, prev, adv, rw)
    ensures Apart(v, w)
  {
    if Retained(v, prev, adv, rv) && Retained(w, prev, adv, rw) {
      var i :| 0 <= i < |prev| && prev[i].id in rv && v in prev[i].worktrees;
      var j :| 0 <= j < |prev| && prev[j].id in rw && w in prev[j].worktrees;
      AcrossRepositories(prev, i, j, v, w);
    } else {
      AdvertisedApart(v, w, prev, adv, rv, rw);
    }
  }

  lemma AdvertisedApart(v: Worktree, w: Worktree, prev: seq<Repository>, adv: seq<Advertised>, rv: set<string>, rw: set<string>)
    requires UniqueAdvertised(adv) && rv !! rw
    requires Origin(v, prev, adv, rv) && Origin(w, prev, adv, rw)
    requires FromAdvertised(v, adv, rv) || FromAdvertised(w, adv, rw)
    ensures Apart(v, w)
  {
    hide InRepositories;
    if FromAdvertised(v, adv, rv) {
      var i :| 0 <= i < |adv| && adv[i].repositoryId in rv && Same(v, adv[i]);
      if FromAdvertised(w, adv, rw) {
        var j :| 0 <= j < |adv| && adv[j].repositoryId in rw && Same(w, adv[j]);
        assert i != j;
      }
    } else {
      var j :| 0 <= j < |adv| && adv[j].repositoryId in rw && Same(w, adv[j]);
    }
  }

  lemma {:induction false} InRepositoryFrom(adv: seq<Advertised>, id: string)
    ensures forall i :: 0 <= i < |InRepository(adv, id)| ==> InRepository(adv, id)[i] in adv && InRepository(adv, id)[i].repositoryId == id
    ensures UniqueAdvertised(adv) ==> UniqueAdvertised(InRepository(adv, id))
  {
    if adv != [] {
      var rest := InRepository(adv[1..], id);
      InRepositoryFrom(adv[1..], id);
      assert UniqueAdvertised(adv) ==> UniqueAdvertised(adv[1..]);
      if UniqueAdvertised(adv) && adv[0].repositoryId == id {
        forall k | 0 <= k < |rest|
          ensures adv[0].id != rest[k].id && adv[0].name != rest[k].name && adv[0].path != rest[k].path
        {
          var l :| 0 <= l < |adv[1..]| && adv[1..][l] == rest[k];
          assert adv[l + 1] == rest[k];
        }
      }
    }
  }

  lemma {:induction false} UnadvertisedFrom(prior: seq<Worktree>, adv: seq<Advertised>)
    ensures forall w :: w in Unadvertised(prior, adv) <==> w in prior && !Matched(w, adv)
    ensures Unique(prior) ==> Unique(Unadvertised(prior, adv))
  {
    hide Apart, Matched;
    if prior != [] {
      var rest := Unadvertised(prior[1..], adv);
      UnadvertisedFrom(prior[1..], adv);
      assert forall w :: w in prior <==> w == prior[0] || w in prior[1..];
      if Unique(prior) {
        assert Unique(prior[1..]);
        forall k | 0 <= k < |rest|
          ensures Apart(prior[0], rest[k])
        {
          assert rest[k] in rest;
          var l :| 0 <= l < |prior[1..]| && prior[1..][l] == rest[k];
          assert prior[l + 1] == rest[k];
        }
      }
    }
  }

  ghost predicate AllOrigin(ws: seq<Worktree>, prev: seq<Repository>, adv: seq<Advertised>, repos: set<string>) {
    forall i :: 0 <= i < |ws| ==> Origin(ws[i], prev, adv, repos)
  }

  lemma OriginMonotone(w: Worktree, prev: seq<Repository>, adv: seq<Advertised>, few: set<string>, many: set<string>)
    requires Origin(w, prev, adv, few) && few <= many
    ensures Origin(w, prev, adv, many)
  {
    hide Matched;
    if FromAdvertised(w, adv, few) {
      var i :| 0 <= i < |adv| && adv[i].repositoryId in few && Same(w, adv[i]);
      assert FromAdvertised(w, adv, many);
    } else {
      var i :| 0 <= i < |prev| && prev[i].id in few && w in prev[i].worktrees;
      assert InRepositories(w, prev, many);
    }
  }

  /** Lists from disjoint repositories can be joined. */
  lemma JoinOrigins(xs: seq<Worktree>, ys: seq<Worktree>, prev: seq<Repository>, adv: seq<Advertised>, rx: set<string>, ry: set<string>)
    requires UniqueAdvertised(adv) && PreviousUnique(prev) && rx !! ry
    requires Unique(xs) && Unique(ys) && AllOrigin(xs, prev, adv, rx) && AllOrigin(ys, prev, adv, ry)
    ensures Unique(xs + ys) && AllOrigin(xs + ys, prev, adv, rx + ry)
  {
    hide Apart, Origin, PreviousUnique, UniqueAdvertised;
    forall i, j | 0 <= i < |xs| && 0 <= j < |ys|
      ensures Apart(xs[i], ys[j])
    {
      OriginsApart(xs[i], ys[j], prev, adv, rx, ry);
    }
    UniqueConcat(xs, ys);
    forall i | 0 <= i < |xs + ys|
      ensures Origin((xs + ys)[i], prev, adv, rx + ry)
    {
      if i < |xs| {
        OriginMonotone(xs[i], prev, adv, rx, rx + ry);
      } else {
        OriginMonotone(ys[i - |xs|], prev, adv, ry, rx + ry);
      }
    }
  }

  lemma {:induction false} LastRepositoryFrom(prev: seq<Repository>, id: string)
    ensures LastRepository(prev, id).Some? ==>
              exists i :: 0 <= i < |prev| && prev[i] == LastRepository(prev, id).value && prev[i].id == id
    ensures LastRepository(prev, id).None? ==> forall i :: 0 <= i < |prev| ==> prev[i].id != id
  {
    if prev != [] {
      LastRepositoryFrom(prev[1..], id);
      if LastRepository(prev[1..], id).Some? {
        var i :| 0 <= i < |prev[1..]| && prev[1..][i] == LastRepository(prev[1..], id).value && prev[1..][i].id == id;
        assert prev[i + 1] == prev[1..][i];
      } else {
        assert forall i :: 1 <= i < |prev| ==> prev[i] == prev[1..][i - 1];
      }
    }
  }

  lemma MergedUnique(previous: Option<Record>, prior: Option<Repository>, adv: seq<Advertised>, id: string)
    requires UniqueAdvertised(adv)
    ensures var ws := MergeWorktrees(previous, prior, InRepository(adv, id));
            Unique(ws) && forall k :: 0 <= k < |ws| ==> FromAdvertised(ws[k], adv, {id})
  {
    var mine := InRepository(adv, id);
    InRepositoryFrom(adv, id);
    var ws := MergeWorktrees(previous, prior, mine);
    forall k | 0 <= k < |ws|
      ensures Same(ws[k], mine[k]) && FromAdvertised(ws[k], adv, {id})
    {
      var i :| 0 <= i < |adv| && adv[i] == mine[k];
    }
  }

  lemma MergedRepository(previous: Option<Record>, reg: Registered, adv: seq<Advertised>)
    requires UniqueAdvertised(adv) && PreviousUnique(PreviousRepositories(previous))
    ensures var ws := MergeRepository(previous, reg, adv).worktrees;
            Unique(ws) && AllOrigin(ws, PreviousRepositories(previous), adv, {reg.id})
  {
    hide MergeWorktrees, Unadvertised, InRepository, Apart, FromAdvertised, Matched;
    var prev := PreviousRepositories(previous);
    var prior := LastRepository(prev, reg.id);
    LastRepositoryFrom(prev, reg.id);
    var merged := MergeWorktrees(previous, prior, InRepository(adv, reg.id));
    MergedUnique(previous, prior, adv, reg.id);
    var kept := Unadvertised(if prior.Some? then prior.value.worktrees else [], adv);
    UnadvertisedFrom(if prior.Some? then prior.value.worktrees else [], adv);
    forall k | 0 <= k < |kept|
      ensures Retained(kept[k], prev, adv, {reg.id})
    {
      assert kept[k] in kept;
    }
    forall i, j | 0 <= i < |merged| && 0 <= j < |kept|
      ensures Apart(merged[i], kept[j])
    {
      NotMatchedApart(merged[i], kept[j], adv, {reg.id});
    }
    UniqueConcat(merged, kept);
  }

  lemma NotMatchedApart(v: Worktree, w: Worktree, adv: seq<Advertised>, repos: set<string>)
    requires FromAdvertised(v, adv, repos) && !Matched(w, adv)
    ensures Apart(v, w)
  {
  }

  ghost function Ids(registered: seq<Registered>): set<string> {
    set i | 0 <= i < |registered| :: registered[i].id
  }

  lemma {:induction false} MergedAll(previous: Option<Record>, registered: seq<Registered>, adv: seq<Advertised>)
    requires UniqueAdvertised(adv) && PreviousUnique(PreviousRepositories(previous)) && DistinctRegistered(registered)
    ensures var ws := AllWorktrees(MergeRepositories(previous, registered, adv));
            Unique(ws) && AllOrigin(ws, PreviousRepositories(previous), adv, Ids(registered))
  {
    hide MergeRepository, Apart, Origin, PreviousUnique, UniqueAdvertised;
    if registered != [] {
      var tail := registered[1..];
      var head := MergeRepository(previous, registered[0], adv);
      MergedAll(previous, tail, adv);
      MergedRepository(previous, registered[0], adv);
      assert {registered[0].id} !! Ids(tail) by {
        assert forall i :: 0 <= i < |tail| ==> tail[i].id != registered[0].id;
      }
      assert Ids(registered) == {registered[0].id} + Ids(tail) by {
        IdsCons(registered);
      }
      assert MergeRepositories(previous, registered, adv)[0] == head;
      assert MergeRepositories(previous, registered, adv)[1..] == MergeRepositories(previous, tail, adv);
      JoinOrigins(head.worktrees, AllWorktrees(MergeRepositories(previous, tail, adv)), PreviousRepositories(previous), adv,
                  {registered[0].id}, Ids(tail));
    }
  }

  lemma IdsCons(registered: seq<Registered>)
    requires registered != []
    ensures Ids(registered) == {registered[0].id} + Ids(registered[1..])
  {
    var tail := registered[1..];
    forall x
      ensures x in Ids(registered) <==> x == registered[0].id || x in Ids(tail)
    {
      if x in Ids(registered) {
        var i :| 0 <= i < |registered| && registered[i].id == x;
        assert i > 0 ==> tail[i - 1].id == x;
      }
      if x in Ids(tail) {
        var i :| 0 <= i < |tail| && tail[i].id == x;
        assert registered[i + 1].id == x;
      }
    }
  }

  ghost function IdsFrom(prev: seq<Repository>, k: nat): set<string>
    requires k <= |prev|
  {
    set i | k <= i < |prev| :: prev[i].id
  }

  lemma {:induction false} UnregisteredAll(prev: seq<Repository>, k: nat, registered: seq<Registered>, adv: seq<Advertised>)
    requires k <= |prev| && UniqueAdvertised(adv) && PreviousUnique(prev)
    ensures var ws := AllWorktrees(Unregistered(prev[k..], registered, adv));
            Unique(ws) && AllOrigin(ws, prev, adv, IdsFrom(prev, k) - Ids(registered))
    decreases |prev| - k
  {
    hide Apart, Origin, PreviousUnique, UniqueAdvertised, Ids, Unadvertised;
    if k < |prev| {
      UnregisteredAll(prev, k + 1, registered, adv);
      assert prev[k..][1..] == prev[k + 1..];
      var rest := AllWorktrees(Unregistered(prev[k + 1..], registered, adv));
      assert IdsFrom(prev, k + 1) <= IdsFrom(prev, k);
      assert prev[k].id in IdsFrom(prev, k);
      if ReplacedRepository(prev[k], registered) {
        forall i | 0 <= i < |rest|
          ensures Origin(rest[i], prev, adv, IdsFrom(prev, k) - Ids(registered))
        {
          OriginMonotone(rest[i], prev, adv, IdsFrom(prev, k + 1) - Ids(registered), IdsFrom(prev, k) - Ids(registered));
        }
        assert Unregistered(prev[k..], registered, adv) == Unregistered(prev[k + 1..], registered, adv);
      } else {
        var mine := Unadvertised(prev[k].worktrees, adv);
        KeptRepository(prev, k, registered, adv);
        assert IdsFrom(prev, k) - Ids(registered) == {prev[k].id} + (IdsFrom(prev, k + 1) - Ids(registered)) by {
          assert forall x :: x in IdsFrom(prev, k) <==> x == prev[k].id || x in IdsFrom(prev, k + 1);
        }
        JoinOrigins(mine, rest, prev, adv, {prev[k].id}, IdsFrom(prev, k + 1) - Ids(registered));
        var all := Unregistered(prev[k..], registered, adv);
        assert all[0].worktrees == mine && all[1..] == Unregistered(prev[k + 1..], registered, adv);
      }
    }
  }

  lemma KeptRepository(prev: seq<Repository>, k: nat, registered: seq<Registered>, adv: seq<Advertised>)
    requires k < |prev| && PreviousUnique(prev) && !ReplacedRepository(prev[k], registered)
    ensures prev[k].id !in Ids(registered) && prev[k].id !in IdsFrom(prev, k + 1)
    ensures Unique(Unadvertised(prev[k].worktrees, adv))
    ensures AllOrigin(Unadvertised(prev[k].worktrees, adv), prev, adv, {prev[k].id})
  {
    hide Apart, Matched, Unadvertised;
    UnadvertisedFrom(prev[k].worktrees, adv);
    var mine := Unadvertised(prev[k].worktrees, adv);
    forall i | 0 <= i < |mine|
      ensures Retained(mine[i], prev, adv, {prev[k].id})
    {
      assert mine[i] in mine;
    }
  }

  /** Distinct advertisements leave all worktree ids, names and paths of the host distinct. */
  lemma RegistrationKeepsUnique(hostId: string, report: Report, previous: Option<Record>)
    requires UniqueAdvertised(report.worktrees) && DistinctRegistered(report.repositories)
    requires PreviousUnique(PreviousRepositories(previous))
    ensures Unique(AllWorktrees(Build(hostId, report, previous).doc.repositories))
    ensures AllOrigin(AllWorktrees(Build(hostId, report, previous).doc.repositories), PreviousRepositories(previous), report.worktrees,
                      Ids(report.repositories) + IdsFrom(PreviousRepositories(previous), 0))
  {
    hide Apart, Origin, PreviousUnique, UniqueAdvertised, Ids, MergeRepositories, Unregistered, NextDaemon;
    var prev, registered, adv := PreviousRepositories(previous), report.repositories, report.worktrees;
    var merged, kept := MergeRepositories(previous, registered, adv), Unregistered(prev, registered, adv);
    MergedAll(previous, registered, adv);
    UnregisteredAll(prev, 0, registered, adv);
    assert prev[0..] == prev;
    AllWorktreesConcat(merged, kept);
    JoinOrigins(AllWorktrees(merged), AllWorktrees(kept), prev, adv, Ids(registered), IdsFrom(prev, 0) - Ids(registered));
    assert Ids(registered) + (IdsFrom(prev, 0) - Ids(registered)) == Ids(registered) + IdsFrom(prev, 0);
  }

  lemma {:induction false} AllWorktreesAt(repos: seq<Repository>, i: nat, k: nat) returns (p: nat)
    requires i < |repos| && k < |repos[i].worktrees|
    ensures p < |AllWorktrees(repos)| && AllWorktrees(repos)[p] == repos[i].worktrees[k]
    ensures i > 0 ==> p >= |repos[0].worktrees|
    ensures i == 0 ==> p == k
  {
    if i == 0 {
      p := k;
    } else {
      assert repos[1..][i - 1] == repos[i];
      var q := AllWorktreesAt(repos[1..], i - 1, k);
      p := |repos[0].worktrees| + q;
    }
  }

  lemma UniqueTail(xs: seq<Worktree>, ys: seq<Worktree>)
    requires Unique(xs + ys)
    ensures Unique(xs) && Unique(ys) && AllApart(xs, ys)
  {
    hide Apart;
    var all := xs + ys;
    assert forall i :: 0 <= i < |xs| ==> all[i] == xs[i];
    assert forall i :: 0 <= i < |ys| ==> all[|xs| + i] == ys[i];
  }

  /** What registration keeps: distinct repository ids, and worktrees unique across the whole host. */
  ghost predicate HostUnique(repos: seq<Repository>) {
    DistinctRepositories(repos) && Unique(AllWorktrees(repos))
  }

  lemma {:induction false} UniqueByRepository(repos: seq<Repository>)
    requires HostUnique(repos)
    ensures PreviousUnique(repos)
  {
    hide Apart;
    if repos != [] {
      var tail := repos[1..];
      UniqueTail(repos[0].worktrees, AllWorktrees(tail));
      UniqueByRepository(tail);
      forall j | 0 < j < |repos|
        ensures AllApart(repos[0].worktrees, repos[j].worktrees) && Unique(repos[j].worktrees)
      {
        assert tail[j - 1] == repos[j];
        FirstApart(repos, j);
      }
      forall i, j | 0 < i < j < |repos|
        ensures AllApart(repos[i].worktrees, repos[j].worktrees)
      {
        assert tail[i - 1] == repos[i] && tail[j - 1] == repos[j];
      }
    }
  }

  lemma FirstApart(repos: seq<Repository>, j: nat)
    requires 0 < j < |repos| && AllApart(repos[0].worktrees, AllWorktrees(repos[1..]))
    ensures AllApart(repos[0].worktrees, repos[j].worktrees)
  {
    hide Apart;
    forall l | 0 <= l < |repos[j].worktrees|
      ensures repos[j].worktrees[l] in AllWorktrees(repos[1..])
    {
      var p := AllWorktreesAt(repos[1..], j - 1, l);
    }
  }

  lemma {:induction false} MergedIds(previous: Option<Record>, registered: seq<Registered>, adv: seq<Advertised>)
    ensures var rs := MergeRepositories(previous, registered, adv);
            |rs| == |registered| && forall i :: 0 <= i < |rs| ==> rs[i] == MergeRepository(previous, registered[i], adv)
  {
    hide MergeRepository;
    if registered != [] {
      MergedIds(previous, registered[1..], adv);
    }
  }

  lemma {:induction false} UnregisteredIds(prior: seq<Repository>, registered: seq<Registered>, adv: seq<Advertised>)
    requires DistinctRepositories(prior)
    ensures var rs := Unregistered(prior, registered, adv);
            && DistinctRepositories(rs)
            && (forall i :: 0 <= i < |rs| ==> rs[i].id !in Ids(registered))
            && (forall i :: 0 <= i < |rs| ==> exists j :: 0 <= j < |prior| && prior[j].id == rs[i].id)
  {
    hide Unadvertised;
    if prior != [] {
      var rest := Unregistered(prior[1..], registered, adv);
      UnregisteredIds(prior[1..], registered, adv);
      forall i | 0 <= i < |rest|
        ensures rest[i].id != prior[0].id && exists j :: 0 <= j < |prior| && prior[j].id == rest[i].id
      {
        var j :| 0 <= j < |prior[1..]| && prior[1..][j].id == rest[i].id;
        assert prior[j + 1].id == rest[i].id;
      }
    }
  }

  /** Registration keeps the host unique, so it stays unique across any number of registrations. */
  lemma RegistrationKeepsHostUnique(hostId: string, report: Report, previous: Option<Record>)
    requires UniqueAdvertised(report.worktrees) && DistinctRegistered(report.repositories)
    requires HostUnique(PreviousRepositories(previous))
    ensures HostUnique(Build(hostId, report, previous).doc.repositories)
  {
    hide Unique, AllWorktrees, MergeRepository, UniqueAdvertised, Unregistered;
    var prev, registered, adv := PreviousRepositories(previous), report.repositories, report.worktrees;
    UniqueByRepository(prev);
    RegistrationKeepsUnique(hostId, report, previous);
    MergedIds(previous, registered, adv);
    UnregisteredIds(prev, registered, adv);
    var merged, kept := MergeRepositories(previous, registered, adv), Unregistered(prev, registered, adv);
    assert forall i :: 0 <= i < |merged| ==> merged[i].id == registered[i].id by {
      MergedId(previous, registered, adv);
    }
    DistinctConcat(merged, kept, Ids(registered));
  }

  lemma MergedId(previous: Option<Record>, registered: seq<Registered>, adv: seq<Advertised>)
    ensures forall i :: 0 <= i < |registered| ==> MergeRepository(previous, registered[i], adv).id == registered[i].id
  {
  }

  lemma DistinctConcat(xs: seq<Repository>, ys: seq<Repository>, ids: set<string>)
    requires DistinctRepositories(xs) && DistinctRepositories(ys)
    requires forall i :: 0 <= i < |xs| ==> xs[i].id in ids
    requires forall i :: 0 <= i < |ys| ==> ys[i].id !in ids
    ensures DistinctRepositories(xs + ys)
  {
  }

  ghost predicate HoldsIn(repos: seq<Repository>, id: string, w: Worktree) {
    exists i :: 0 <= i < |repos| && repos[i].id == id && w in repos[i].worktrees
  }

  /** Is the configured repository still there, under its own id, after this registration? */
  ghost predicate Kept(repository: Repository, registered: seq<Registered>) {
    repository.id in Ids(registered) || !ReplacedRepository(repository, registered)
  }

  /** No configured worktree of a kept repository is lost unless an advertisement matches it. */
  lemma RegistrationRetains(hostId: string, report: Report, previous: Option<Record>, k: nat, w: Worktree)
    requires DistinctRepositories(PreviousRepositories(previous)) && k < |PreviousRepositories(previous)|
    requires w in PreviousRepositories(previous)[k].worktrees && !Matched(w, report.worktrees)
    requires Kept(PreviousRepositories(previous)[k], report.repositories)
    ensures HoldsIn(Build(hostId, report, previous).doc.repositories, PreviousRepositories(previous)[k].id, w)
  {
    hide Matched, Unadvertised, MergeRepositories, Unregistered, ReplacedRepository, MergeRepository;
    var prev, registered, adv := PreviousRepositories(previous), report.repositories, report.worktrees;
    var merged, kept := MergeRepositories(previous, registered, adv), Unregistered(prev, registered, adv);
    var all := Build(hostId, report, previous).doc.repositories;
    assert all == merged + kept;
    if prev[k].id in Ids(registered) {
      var i :| 0 <= i < |registered| && registered[i].id == prev[k].id;
      MergedIds(previous, registered, adv);
      RetainedInMerge(previous, registered[i], adv, k, w);
      assert all[i] == MergeRepository(previous, registered[i], adv);
    } else {
      var i := RetainedUnregistered(prev, registered, adv, k, w);
      assert all[|merged| + i] == kept[i];
    }
  }

  lemma RetainedInMerge(previous: Option<Record>, reg: Registered, adv: seq<Advertised>, k: nat, w: Worktree)
    requires DistinctRepositories(PreviousRepositories(previous)) && k < |PreviousRepositories(previous)|
    requires w in PreviousRepositories(previous)[k].worktrees && !Matched(w, adv)
    requires reg.id == PreviousRepositories(previous)[k].id
    ensures MergeRepository(previous, reg, adv).id == reg.id && w in MergeRepository(previous, reg, adv).worktrees
  {
    hide Matched, Unadvertised, MergeWorktrees;
    var prev := PreviousRepositories(previous);
    LastRepositoryFrom(prev, reg.id);
    assert LastRepository(prev, reg.id) == Some(prev[k]);
    UnadvertisedFrom(prev[k].worktrees, adv);
  }

  lemma {:induction false} RetainedUnregistered(prior: seq<Repository>, registered: seq<Registered>, adv: seq<Advertised>, k: nat, w: Worktree)
    returns (i: nat)
    requires k < |prior| && w in prior[k].worktrees && !Matched(w, adv) && !ReplacedRepository(prior[k], registered)
    ensures i < |Unregistered(prior, registered, adv)|
    ensures Unregistered(prior, registered, adv)[i].id == prior[k].id && w in Unregistered(prior, registered, adv)[i].worktrees
  {
    hide Matched, Unadvertised, ReplacedRepository;
    var rest := Unregistered(prior[1..], registered, adv);
    if k == 0 {
      UnadvertisedFrom(prior[0].worktrees, adv);
      i := 0;
    } else {
      assert prior[1..][k - 1] == prior[k];
      i := RetainedUnregistered(prior[1..], registered, adv, k - 1, w);
      if !ReplacedRepository(prior[0], registered) {
        i := i + 1;
      }
    }
  }
}
