/** Runs of operator PUTs and daemon registrations (services/api/src/control-plane-agent-hosts.ts). */
module RegistrationRuns {
  import opened Options
  import opened Inventory
  import opened Registration
  import opened RegistrationUnique

  /** A submitted worktree takes over the daemon snapshot of the stored one. */
  function PutWorktree(prior: Option<Repository>, wt: Worktree): Worktree {
    var priorWorktree := if prior.Some? then FindWorktree(prior.value.worktrees, wt.id) else None;
    if priorWorktree.None? || priorWorktree.value.daemonLabels.None? then wt
    else wt.(daemonLabels := priorWorktree.value.daemonLabels)
  }

  function PutWorktrees(prior: Option<Repository>, worktrees: seq<Worktree>): seq<Worktree> {
    if worktrees == [] then [] else [PutWorktree(prior, worktrees[0])] + PutWorktrees(prior, worktrees[1..])
  }

  function PutRepositories(previous: Option<Record>, repositories: seq<Repository>): seq<Repository> {
    if repositories == [] then []
    else
      var repository := repositories[0];
      var prior := FindRepository(PreviousRepositories(previous), repository.id);
      [repository.(worktrees := PutWorktrees(prior, repository.worktrees))] + PutRepositories(previous, repositories[1..])
  }

  /** The record `prepareHostInventory` builds for an accepted document. */
  function PutRecord(hostId: string, doc: Document, at: string, previous: Option<Record>): Record {
    Record(
      hostId,
      doc.(repositories := PutRepositories(previous, doc.repositories)),
      (if previous.Some? then previous.value.version else 0) + 1,
      PreservedDaemon(previous),
      at)
  }

  datatype Event = Put(doc: Document, at: string) | Register(report: Report)

  function Apply(hostId: string, previous: Option<Record>, e: Event): Record {
    match e
    case Put(doc, at) => PutRecord(hostId, doc, at, previous)
    case Register(report) => Build(hostId, report, previous)
  }

  function Run(hostId: string, initial: Option<Record>, events: seq<Event>): Option<Record> {
    if events == [] then initial
    else Some(Apply(hostId, Run(hostId, initial, events[..|events| - 1]), events[|events| - 1]))
  }

  /** Parsed documents carry no daemon snapshot; reported identities are never empty strings. */
  ghost predicate Accepted(e: Event) {
    match e
    case Put(doc, _) =>
      && HostUnique(doc.repositories)
      && forall i, j :: 0 <= i < |doc.repositories| && 0 <= j < |doc.repositories[i].worktrees| ==>
           doc.repositories[i].worktrees[j].daemonLabels.None?
    case Register(report) =>
      && UniqueAdvertised(report.worktrees)
      && DistinctRegistered(report.repositories)
      && (report.identity.Some? ==> report.identity.value.instanceId != "")
  }

  ghost predicate AllAccepted(events: seq<Event>) {
    forall i :: 0 <= i < |events| ==> Accepted(events[i])
  }

  // Restart counting

  function Reported(events: seq<Event>): seq<string> {
    if events == [] then []
    else
      var e := events[|events| - 1];
      Reported(events[..|events| - 1])
      + if e.Register? && e.report.identity.Some? then [e.report.identity.value.instanceId] else []
  }

  /** Positions at which an entry differs from the one before it. */
  function Changes(ids: seq<string>): nat {
    if |ids| <= 1 then 0
    else Changes(ids[..|ids| - 1]) + if ids[|ids| - 1] != ids[|ids| - 2] then 1 else 0
  }

  function DaemonOf(record: Option<Record>): Daemon {
    if record.Some? then record.value.daemon else NO_DAEMON
  }

  function KnownBefore(initial: Option<Record>): seq<string> {
    if DaemonOf(initial).instanceId.Some? then [DaemonOf(initial).instanceId.value] else []
  }

  lemma ChangesSnoc(ids: seq<string>, id: string)
    ensures Changes(ids + [id]) == Changes(ids) + if ids != [] && ids[|ids| - 1] != id then 1 else 0
  {
    assert (ids + [id])[..|ids|] == ids;
  }

  /** The counter equals the number of changes between consecutive known daemon instances. */
  lemma {:induction false} RestartsCounted(hostId: string, initial: Option<Record>, events: seq<Event>)
    requires AllAccepted(events) && DaemonOf(initial).instanceId != Some("")
    ensures var ids := KnownBefore(initial) + Reported(events);
            var d := DaemonOf(Run(hostId, initial, events));
            && OrElse(d.restartCount, 0) == OrElse(DaemonOf(initial).restartCount, 0) + Changes(ids)
            && d.instanceId == (if ids == [] then None else Some(ids[|ids| - 1]))
            && d.instanceId != Some("")
  {
    hide Accepted, Apply, Reported, Changes;
    if events == [] {
      NothingReported(KnownBefore(initial));
    } else {
      var prefix, e := events[..|events| - 1], events[|events| - 1];
      RestartsCounted(hostId, initial, prefix);
      assert Accepted(e);
      DaemonStep(hostId, Run(hostId, initial, prefix), e);
      ReportedStep(KnownBefore(initial), prefix, e);
      assert prefix + [e] == events;
    }
  }

  lemma NothingReported(known: seq<string>)
    requires |known| <= 1
    ensures known + Reported([]) == known && Changes(known) == 0
  {
  }

  lemma ReportedStep(known: seq<string>, prefix: seq<Event>, e: Event)
    ensures var ids, all := known + Reported(prefix), known + Reported(prefix + [e]);
            if e.Register? && e.report.identity.Some? then
              var id := e.report.identity.value.instanceId;
              && all == ids + [id]
              && Changes(all) == Changes(ids) + if ids != [] && ids[|ids| - 1] != id then 1 else 0
            else all == ids
  {
    hide Changes;
    var ids := known + Reported(prefix);
    assert (prefix + [e])[..|prefix|] == prefix;
    if e.Register? && e.report.identity.Some? {
      var id := e.report.identity.value.instanceId;
      ChangesSnoc(ids, id);
      assert known + (Reported(prefix) + [id]) == ids + [id];
    } else {
      assert known + (Reported(prefix) + []) == ids;
    }
  }

  lemma DaemonStep(hostId: string, previous: Option<Record>, e: Event)
    requires Accepted(e) && DaemonOf(previous).instanceId != Some("")
    ensures var d, before := Apply(hostId, previous, e).daemon, DaemonOf(previous);
            if e.Register? && e.report.identity.Some? then
              var id := e.report.identity.value.instanceId;
              && d.instanceId == Some(id) && id != ""
              && OrElse(d.restartCount, 0) == OrElse(before.restartCount, 0)
                   + (if before.instanceId.Some? && before.instanceId.value != id then 1 else 0)
            else d.instanceId == before.instanceId && OrElse(d.restartCount, 0) == OrElse(before.restartCount, 0)
  {
    hide HostUnique, UniqueAdvertised, MergeRepositories, Unregistered, PutRepositories;
  }

  // Finding one worktree in a record

  function Look(repositories: seq<Repository>, r: string, w: string): Option<Worktree> {
    var repository := FindRepository(repositories, r);
    if repository.None? then None else FindWorktree(repository.value.worktrees, w)
  }

  function LookIn(record: Option<Record>, r: string, w: string): Option<Worktree> {
    Look(PreviousRepositories(record), r, w)
  }

  function FirstAdvert(adv: seq<Advertised>, w: string): Option<Advertised> {
    if adv == [] then None else if adv[0].id == w then Some(adv[0]) else FirstAdvert(adv[1..], w)
  }

  /** The daemon's labels for the worktree, when it registers the repository and advertises the worktree in it. */
  ghost function Snapshot(report: Report, r: string, w: string): Option<seq<string>> {
    var a := FirstAdvert(InRepository(report.worktrees, r), w);
    if r in Ids(report.repositories) && a.Some? then Some(a.value.labels) else None
  }

  lemma {:induction false} FindRepositoryConcat(xs: seq<Repository>, ys: seq<Repository>, id: string)
    ensures FindRepository(xs + ys, id) == var x := FindRepository(xs, id); if x.Some? then x else FindRepository(ys, id)
  {
    if xs == [] {
      assert xs + ys == ys;
    } else {
      assert (xs + ys)[1..] == xs[1..] + ys;
      FindRepositoryConcat(xs[1..], ys, id);
    }
  }

  lemma {:induction false} FindWorktreeConcat(xs: seq<Worktree>, ys: seq<Worktree>, id: string)
    ensures FindWorktree(xs + ys, id) == var x := FindWorktree(xs, id); if x.Some? then x else FindWorktree(ys, id)
  {
    if xs == [] {
      assert xs + ys == ys;
    } else {
      assert (xs + ys)[1..] == xs[1..] + ys;
      FindWorktreeConcat(xs[1..], ys, id);
    }
  }

  /** With distinct ids, removing worktrees never uncovers a different one. */
  lemma FindUnadvertised(prior: seq<Worktree>, adv: seq<Advertised>, w: string)
    requires Unique(prior) && FindWorktree(Unadvertised(prior, adv), w).Some?
    ensures FindWorktree(Unadvertised(prior, adv), w) == FindWorktree(prior, w)
  {
    hide Unadvertised, Matched;
    UnadvertisedFrom(prior, adv);
    var v := FindWorktree(Unadvertised(prior, adv), w).value;
    var i :| 0 <= i < |prior| && prior[i] == v;
    var u := FindWorktree(prior, w).value;
    var j :| 0 <= j < |prior| && prior[j] == u;
    UniqueIds(prior);
  }

  lemma UniqueIds(ws: seq<Worktree>)
    requires Unique(ws)
    ensures forall i, j :: 0 <= i < j < |ws| ==> ws[i].id != ws[j].id
  {
    forall i, j | 0 <= i < j < |ws|
      ensures ws[i].id != ws[j].id
    {
      assert Apart(ws[i], ws[j]);
    }
  }

  lemma {:induction false} FindMerged(previous: Option<Record>, prior: Option<Repository>, mine: seq<Advertised>, w: string)
    ensures var a := FirstAdvert(mine, w);
            FindWorktree(MergeWorktrees(previous, prior, mine), w) ==
            if a.Some? then Some(MergeWorktree(previous, prior, a.value)) else None
    ensures var a := FirstAdvert(mine, w); a.Some? ==> a.value in mine && a.value.id == w
  {
    hide MergeWorktree;
    if mine != [] {
      FindMerged(previous, prior, mine[1..], w);
      MergeTail(previous, prior, mine);
      MergedWorktreeId(previous, prior, mine[0]);
    }
  }

  lemma MergeTail(previous: Option<Record>, prior: Option<Repository>, mine: seq<Advertised>)
    requires mine != []
    ensures MergeWorktrees(previous, prior, mine)[1..] == MergeWorktrees(previous, prior, mine[1..])
  {
    hide MergeWorktree;
    var tail, all := MergeWorktrees(previous, prior, mine[1..]), MergeWorktrees(previous, prior, mine);
    forall i | 0 <= i < |tail|
      ensures tail[i] == all[1..][i]
    {
      assert all[1..][i] == all[i + 1] == MergeWorktree(previous, prior, mine[i + 1]);
    }
  }

  lemma MergedWorktreeId(previous: Option<Record>, prior: Option<Repository>, wt: Advertised)
    ensures MergeWorktree(previous, prior, wt).id == wt.id
  {
  }

  lemma FindMergedRepository(previous: Option<Record>, registered: seq<Registered>, adv: seq<Advertised>, r: string)
    ensures var found := FindRepository(MergeRepositories(previous, registered, adv), r);
            && (found.Some? <==> r in Ids(registered))
            && (found.Some? ==> exists reg :: reg in registered && reg.id == r && found.value == MergeRepository(previous, reg, adv))
  {
    hide MergeRepository, MergeRepositories;
    var merged := MergeRepositories(previous, registered, adv);
    MergedIds(previous, registered, adv);
    MergedId(previous, registered, adv);
    var found := FindRepository(merged, r);
    if r in Ids(registered) {
      var i :| 0 <= i < |registered| && registered[i].id == r;
      assert merged[i].id == r;
    }
    if found.Some? {
      var i :| 0 <= i < |merged| && merged[i] == found.value;
      assert registered[i] in registered;
    }
  }

  lemma {:induction false} UnregisteredFrom(prior: seq<Repository>, registered: seq<Registered>, adv: seq<Advertised>, x: Repository)
    returns (j: nat)
    requires x in Unregistered(prior, registered, adv)
    ensures j < |prior| && x == prior[j].(worktrees := Unadvertised(prior[j].worktrees, adv)) && !ReplacedRepository(prior[j], registered)
  {
    hide Unadvertised, ReplacedRepository;
    var rest := Unregistered(prior[1..], registered, adv);
    if x in rest {
      j := UnregisteredFrom(prior[1..], registered, adv, x);
      j := j + 1;
    } else {
      j := 0;
    }
  }

  lemma PriorIsFound(prev: seq<Repository>, id: string)
    requires DistinctRepositories(prev)
    ensures LastRepository(prev, id) == FindRepository(prev, id)
  {
    LastRepositoryFrom(prev, id);
    if LastRepository(prev, id).Some? {
      var i :| 0 <= i < |prev| && prev[i] == LastRepository(prev, id).value && prev[i].id == id;
      FindDistinct(prev, i);
    }
  }

  /** What one registration does to a worktree that is still in its repository afterwards. */
  lemma LookAfterRegistration(hostId: string, report: Report, previous: Option<Record>, r: string, w: string)
    requires HostUnique(PreviousRepositories(previous))
    requires LookIn(Some(Build(hostId, report, previous)), r, w).Some?
    ensures var s, before := Snapshot(report, r, w), LookIn(previous, r, w);
            var after := LookIn(Some(Build(hostId, report, previous)), r, w).value;
            if s.None? then before == Some(after)
            else
              && after.daemonLabels == s
              && after.labels == if before.Some? && before.value.daemonLabels in {None, s} then before.value.labels else s.value
  {
    hide MergeRepositories, Unregistered, MergeRepository, Unadvertised, InRepository, Unique, AllWorktrees, NextDaemon;
    var prev, registered, adv := PreviousRepositories(previous), report.repositories, report.worktrees;
    var merged, kept := MergeRepositories(previous, registered, adv), Unregistered(prev, registered, adv);
    UniqueByRepository(prev);
    FindRepositoryConcat(merged, kept, r);
    FindMergedRepository(previous, registered, adv, r);
    if r in Ids(registered) {
      var reg :| reg in registered && reg.id == r && FindRepository(merged, r) == Some(MergeRepository(previous, reg, adv));
      LookInMerged(previous, reg, adv, w);
    } else {
      LookInKept(prev, registered, adv, r, w);
    }
  }

  lemma LookInKept(prev: seq<Repository>, registered: seq<Registered>, adv: seq<Advertised>, r: string, w: string)
    requires PreviousUnique(prev) && Look(Unregistered(prev, registered, adv), r, w).Some?
    ensures Look(prev, r, w) == Look(Unregistered(prev, registered, adv), r, w)
  {
    hide Unregistered, Unadvertised, Unique;
    var x := FindRepository(Unregistered(prev, registered, adv), r).value;
    var j := UnregisteredFrom(prev, registered, adv, x);
    FindDistinct(prev, j);
    FindUnadvertised(prev[j].worktrees, adv, w);
  }

  lemma LookInMerged(previous: Option<Record>, reg: Registered, adv: seq<Advertised>, w: string)
    requires PreviousUnique(PreviousRepositories(previous))
    requires FindWorktree(MergeRepository(previous, reg, adv).worktrees, w).Some?
    ensures var a, before := FirstAdvert(InRepository(adv, reg.id), w), LookIn(previous, reg.id, w);
            var after := FindWorktree(MergeRepository(previous, reg, adv).worktrees, w).value;
            if a.None? then before == Some(after)
            else
              && after.daemonLabels == Some(a.value.labels)
              && after.labels == if before.Some? && before.value.daemonLabels in {None, Some(a.value.labels)} then before.value.labels else a.value.labels
  {
    hide MergeWorktrees, Unadvertised, InRepository, Unique;
    var prev := PreviousRepositories(previous);
    PriorIsFound(prev, reg.id);
    var prior := FindRepository(prev, reg.id);
    var mine := InRepository(adv, reg.id);
    var rest := if prior.Some? then prior.value.worktrees else [];
    FindWorktreeConcat(MergeWorktrees(previous, prior, mine), Unadvertised(rest, adv), w);
    FindMerged(previous, prior, mine, w);
    InRepositoryFrom(adv, reg.id);
    if FirstAdvert(mine, w).None? {
      assert Unique(rest) by { UniqueRest(prev, prior); }
      FindUnadvertised(rest, adv, w);
    } else {
      var a := FirstAdvert(mine, w).value;
      assert a.repositoryId == reg.id;
      MergedLabels(previous, prior, a);
    }
  }

  lemma MergedLabels(previous: Option<Record>, prior: Option<Repository>, a: Advertised)
    ensures var before := LookIn(previous, a.repositoryId, a.id);
            var after := MergeWorktree(previous, prior, a);
            && after.daemonLabels == Some(a.labels)
            && after.labels == if before.Some? && before.value.daemonLabels in {None, Some(a.labels)} then before.value.labels else a.labels
  {
    hide FindWorktree, FindRepository;
  }

  lemma UniqueRest(prev: seq<Repository>, prior: Option<Repository>)
    requires PreviousUnique(prev) && (prior.Some? ==> prior.value in prev)
    ensures Unique(if prior.Some? then prior.value.worktrees else [])
  {
  }

  /** Operator settings of a worktree: everything but its place, its labels and its snapshot. */
  ghost predicate SameWorktreeSettings(a: Worktree, b: Worktree) {
    a.setupScript == b.setupScript && a.setupCacheInputs == b.setupCacheInputs && a.overrides == b.overrides
  }

  ghost predicate SameRepositorySettings(a: Repository, b: Repository) {
    && a.setupScript == b.setupScript && a.setupCacheInputs == b.setupCacheInputs
    && a.terminalHookScript == b.terminalHookScript && a.requiredEnvironment == b.requiredEnvironment
    && a.overrides == b.overrides
  }

  ghost predicate SameHostSettings(a: Document, b: Document) {
    && a.setupScript == b.setupScript && a.setupCacheInputs == b.setupCacheInputs
    && a.setupCacheHostInputs == b.setupCacheHostInputs && a.allowedRoots == b.allowedRoots
    && a.requiredEnvironment == b.requiredEnvironment && a.providerAccounts == b.providerAccounts
    && (a.workspacePools.Some? ==> b.workspacePools == a.workspacePools)
  }

  /** Every operator setting of `before` that still has a place in `after` is unchanged there. */
  ghost predicate KeepsOperatorSettings(before: Document, after: Document) {
    && SameHostSettings(before, after)
    && (forall r :: FindRepository(before.repositories, r).Some? && FindRepository(after.repositories, r).Some? ==>
          SameRepositorySettings(FindRepository(before.repositories, r).value, FindRepository(after.repositories, r).value))
    && (forall r, w :: Look(before.repositories, r, w).Some? && Look(after.repositories, r, w).Some? ==>
          SameWorktreeSettings(Look(before.repositories, r, w).value, Look(after.repositories, r, w).value))
  }

  /** A registration keeps the settings of the document it is built from, except `updateConfig`. */
  lemma RegistrationKeepsSettings(hostId: string, report: Report, previous: Record)
    requires HostUnique(previous.doc.repositories)
    ensures KeepsOperatorSettings(previous.doc, Build(hostId, report, Some(previous)).doc)
    ensures Build(hostId, report, Some(previous)).doc.updateConfig.None?
  {
    hide HostUnique, MergeRepositories, Unregistered, NextDaemon, SameRepositorySettings, SameWorktreeSettings, FindRepository, Look;
    var before, after := previous.doc.repositories, Build(hostId, report, Some(previous)).doc.repositories;
    forall r | FindRepository(before, r).Some? && FindRepository(after, r).Some?
      ensures SameRepositorySettings(FindRepository(before, r).value, FindRepository(after, r).value)
    {
      RepositorySettingsFrom(hostId, report, previous, r);
    }
    forall r, w | Look(before, r, w).Some? && Look(after, r, w).Some?
      ensures SameWorktreeSettings(Look(before, r, w).value, Look(after, r, w).value)
    {
      WorktreeSettingsFrom(hostId, report, previous, r, w);
    }
  }

  /** The settings a document gives to an entry it may not list: none at all. */
  const NO_REPOSITORY := Repository("", "", "", [], None, None, None, None, None)

  const NO_WORKTREE := Worktree("", "", "", [], None, None, None, None)

  function RepositoryOr(d: Document, r: string): Repository { OrElse(FindRepository(d.repositories, r), NO_REPOSITORY) }

  function WorktreeOr(d: Document, r: string, w: string): Worktree { OrElse(Look(d.repositories, r, w), NO_WORKTREE) }

  /** Every listed repository has the settings of the document the registration is built from, or none. */
  lemma RepositorySettingsFrom(hostId: string, report: Report, previous: Record, r: string)
    requires HostUnique(previous.doc.repositories)
    requires FindRepository(Build(hostId, report, Some(previous)).doc.repositories, r).Some?
    ensures SameRepositorySettings(RepositoryOr(previous.doc, r), FindRepository(Build(hostId, report, Some(previous)).doc.repositories, r).value)
  {
    hide MergeRepositories, Unregistered, MergeWorktrees, Unadvertised, InRepository, Unique, AllWorktrees, NextDaemon;
    var prev, registered, adv := previous.doc.repositories, report.repositories, report.worktrees;
    var merged, kept := MergeRepositories(Some(previous), registered, adv), Unregistered(prev, registered, adv);
    FindRepositoryConcat(merged, kept, r);
    FindMergedRepository(Some(previous), registered, adv, r);
    if r in Ids(registered) {
      PriorIsFound(prev, r);
    } else {
      var j := UnregisteredFrom(prev, registered, adv, FindRepository(kept, r).value);
      FindDistinct(prev, j);
    }
  }

  lemma WorktreeSettingsFrom(hostId: string, report: Report, previous: Record, r: string, w: string)
    requires HostUnique(previous.doc.repositories)
    requires Look(Build(hostId, report, Some(previous)).doc.repositories, r, w).Some?
    ensures SameWorktreeSettings(WorktreeOr(previous.doc, r, w), Look(Build(hostId, report, Some(previous)).doc.repositories, r, w).value)
  {
    hide MergeRepositories, Unregistered, MergeRepository, Unadvertised, InRepository, Unique, AllWorktrees, NextDaemon;
    var prev, registered, adv := previous.doc.repositories, report.repositories, report.worktrees;
    var merged, kept := MergeRepositories(Some(previous), registered, adv), Unregistered(prev, registered, adv);
    UniqueByRepository(prev);
    FindRepositoryConcat(merged, kept, r);
    FindMergedRepository(Some(previous), registered, adv, r);
    if r in Ids(registered) {
      var reg :| reg in registered && reg.id == r && FindRepository(merged, r) == Some(MergeRepository(Some(previous), reg, adv));
      SettingsInMerged(previous, reg, adv, w);
    } else {
      LookInKept(prev, registered, adv, r, w);
    }
  }

  lemma SettingsInMerged(previous: Record, reg: Registered, adv: seq<Advertised>, w: string)
    requires PreviousUnique(previous.doc.repositories)
    requires FindWorktree(MergeRepository(Some(previous), reg, adv).worktrees, w).Some?
    ensures SameWorktreeSettings(WorktreeOr(previous.doc, reg.id, w),
                                 FindWorktree(MergeRepository(Some(previous), reg, adv).worktrees, w).value)
  {
    hide MergeWorktrees, Unadvertised, InRepository, Unique, RegisteredLabels;
    var prev := previous.doc.repositories;
    PriorIsFound(prev, reg.id);
    var prior := FindRepository(prev, reg.id);
    var mine := InRepository(adv, reg.id);
    var rest := if prior.Some? then prior.value.worktrees else [];
    FindWorktreeConcat(MergeWorktrees(Some(previous), prior, mine), Unadvertised(rest, adv), w);
    FindMerged(Some(previous), prior, mine, w);
    if FirstAdvert(mine, w).None? {
      assert Unique(rest) by { UniqueRest(prev, prior); }
      FindUnadvertised(rest, adv, w);
    }
  }

  ghost predicate AgreesOnHost(before: Document, cached: Document, report: Report) {
    && before.setupScript == cached.setupScript && before.setupCacheInputs == cached.setupCacheInputs
    && before.setupCacheHostInputs == cached.setupCacheHostInputs && before.allowedRoots == cached.allowedRoots
    && before.requiredEnvironment == cached.requiredEnvironment && before.providerAccounts == cached.providerAccounts
    && (before.workspacePools.Some? ==>
          before.workspacePools == if cached.workspacePools.Some? then cached.workspacePools else report.workspacePools)
  }

  /** A repository is listed after the registration: it is registered, or cached and not replaced. */
  ghost predicate ListedRepository(cached: Document, report: Report, r: string) {
    var stored := FindRepository(cached.repositories, r);
    r in Ids(report.repositories) || (stored.Some? && !ReplacedRepository(stored.value, report.repositories))
  }

  /** A worktree is listed in it: it is advertised there, or cached and matched by no advertisement. */
  ghost predicate ListedWorktree(cached: Document, report: Report, r: string, w: string) {
    var stored := Look(cached.repositories, r, w);
    && ListedRepository(cached, report, r)
    && (Snapshot(report, r, w).Some? || (stored.Some? && !Matched(stored.value, report.worktrees)))
  }

  /** The cached document gives every entry that stays listed the settings that the replaced document gave it. */
  ghost predicate CacheAgrees(before: Document, cached: Document, report: Report) {
    && AgreesOnHost(before, cached, report)
    && (forall r :: FindRepository(before.repositories, r).Some? && ListedRepository(cached, report, r) ==>
          SameRepositorySettings(FindRepository(before.repositories, r).value, RepositoryOr(cached, r)))
    && (forall r, w :: Look(before.repositories, r, w).Some? && ListedWorktree(cached, report, r, w) ==>
          SameWorktreeSettings(Look(before.repositories, r, w).value, WorktreeOr(cached, r, w)))
  }

  lemma {:induction false} KeptIsUnregistered(prior: seq<Repository>, registered: seq<Registered>, adv: seq<Advertised>, k: nat)
    requires k < |prior| && !ReplacedRepository(prior[k], registered)
    ensures prior[k].(worktrees := Unadvertised(prior[k].worktrees, adv)) in Unregistered(prior, registered, adv)
  {
    hide Unadvertised, ReplacedRepository;
    if k > 0 {
      assert prior[1..][k - 1] == prior[k];
      KeptIsUnregistered(prior[1..], registered, adv, k - 1);
    }
  }

  /** Among the kept repositories, one with the id is found exactly if a stored one is not replaced. */
  lemma FindKept(prev: seq<Repository>, registered: seq<Registered>, adv: seq<Advertised>, r: string)
    requires DistinctRepositories(prev)
    ensures var stored := FindRepository(prev, r);
            var found := FindRepository(Unregistered(prev, registered, adv), r);
            && (found.Some? <==> stored.Some? && !ReplacedRepository(stored.value, registered))
            && (found.Some? ==> found.value == stored.value.(worktrees := Unadvertised(stored.value.worktrees, adv)))
  {
    hide Unregistered, Unadvertised, ReplacedRepository;
    var stored, kept := FindRepository(prev, r), Unregistered(prev, registered, adv);
    if FindRepository(kept, r).Some? {
      var j := UnregisteredFrom(prev, registered, adv, FindRepository(kept, r).value);
      FindDistinct(prev, j);
    }
    if stored.Some? && !ReplacedRepository(stored.value, registered) {
      var k :| 0 <= k < |prev| && prev[k] == stored.value;
      KeptIsUnregistered(prev, registered, adv, k);
      var x := prev[k].(worktrees := Unadvertised(prev[k].worktrees, adv));
      var i :| 0 <= i < |kept| && kept[i] == x;
    }
  }

  lemma FindUnmatched(prior: seq<Worktree>, adv: seq<Advertised>, w: string)
    requires Unique(prior)
    ensures var stored := FindWorktree(prior, w);
            FindWorktree(Unadvertised(prior, adv), w).Some? <==> stored.Some? && !Matched(stored.value, adv)
  {
    hide Unadvertised, Matched, Unique;
    UnadvertisedFrom(prior, adv);
    var stored, left := FindWorktree(prior, w), Unadvertised(prior, adv);
    if FindWorktree(left, w).Some? {
      FindUnadvertised(prior, adv, w);
      assert stored.value in left;
    }
    if stored.Some? && !Matched(stored.value, adv) {
      assert stored.value in left;
    }
  }

  lemma RepositoryListedIff(hostId: string, report: Report, cached: Record, r: string)
    requires HostUnique(cached.doc.repositories)
    ensures FindRepository(Build(hostId, report, Some(cached)).doc.repositories, r).Some? <==> ListedRepository(cached.doc, report, r)
  {
    hide MergeRepositories, Unregistered, MergeRepository, AllWorktrees, Unique, NextDaemon, ReplacedRepository;
    var prev, registered, adv := cached.doc.repositories, report.repositories, report.worktrees;
    FindRepositoryConcat(MergeRepositories(Some(cached), registered, adv), Unregistered(prev, registered, adv), r);
    FindMergedRepository(Some(cached), registered, adv, r);
    FindKept(prev, registered, adv, r);
  }

  lemma WorktreeListedIff(hostId: string, report: Report, cached: Record, r: string, w: string)
    requires HostUnique(cached.doc.repositories)
    ensures Look(Build(hostId, report, Some(cached)).doc.repositories, r, w).Some? <==> ListedWorktree(cached.doc, report, r, w)
  {
    hide MergeRepositories, Unregistered, MergeRepository, AllWorktrees, Unique, NextDaemon, ReplacedRepository, Unadvertised, Matched, InRepository;
    var prev, registered, adv := cached.doc.repositories, report.repositories, report.worktrees;
    UniqueByRepository(prev);
    FindRepositoryConcat(MergeRepositories(Some(cached), registered, adv), Unregistered(prev, registered, adv), r);
    FindMergedRepository(Some(cached), registered, adv, r);
    if r in Ids(registered) {
      var reg :| reg in registered && reg.id == r
                 && FindRepository(MergeRepositories(Some(cached), registered, adv), r) == Some(MergeRepository(Some(cached), reg, adv));
      MergedWorktreeIff(cached, reg, adv, w);
    } else {
      FindKept(prev, registered, adv, r);
      var stored := FindRepository(prev, r);
      if stored.Some? {
        assert Unique(stored.value.worktrees) by { UniqueRest(prev, stored); }
        FindUnmatched(stored.value.worktrees, adv, w);
      }
    }
  }

  lemma MergedWorktreeIff(cached: Record, reg: Registered, adv: seq<Advertised>, w: string)
    requires PreviousUnique(cached.doc.repositories)
    ensures var stored := Look(cached.doc.repositories, reg.id, w);
            FindWorktree(MergeRepository(Some(cached), reg, adv).worktrees, w).Some? <==>
            FirstAdvert(InRepository(adv, reg.id), w).Some? || (stored.Some? && !Matched(stored.value, adv))
  {
    hide MergeWorktrees, Unadvertised, InRepository, Unique, Matched;
    var prev := cached.doc.repositories;
    PriorIsFound(prev, reg.id);
    var prior, mine := FindRepository(prev, reg.id), InRepository(adv, reg.id);
    var rest := if prior.Some? then prior.value.worktrees else [];
    FindWorktreeConcat(MergeWorktrees(Some(cached), prior, mine), Unadvertised(rest, adv), w);
    FindMerged(Some(cached), prior, mine, w);
    assert Unique(rest) by { UniqueRest(prev, prior); }
    FindUnmatched(rest, adv, w);
  }

  /** A merge built from one document keeps the settings of another exactly when the two agree on them. */
  lemma SettingsKeptIffCacheAgrees(hostId: string, report: Report, cached: Record, before: Document)
    requires HostUnique(cached.doc.repositories)
    ensures KeepsOperatorSettings(before, Build(hostId, report, Some(cached)).doc) <==> CacheAgrees(before, cached.doc, report)
  {
    hide HostUnique, MergeRepositories, Unregistered, NextDaemon, FindRepository, Look, RepositoryOr, WorktreeOr, ListedRepository, ListedWorktree;
    var after := Build(hostId, report, Some(cached)).doc;
    forall r
      ensures FindRepository(after.repositories, r).Some? <==> ListedRepository(cached.doc, report, r)
      ensures FindRepository(after.repositories, r).Some? ==>
                SameRepositorySettings(RepositoryOr(cached.doc, r), FindRepository(after.repositories, r).value)
    {
      RepositoryListedIff(hostId, report, cached, r);
      if FindRepository(after.repositories, r).Some? {
        RepositorySettingsFrom(hostId, report, cached, r);
      }
    }
    forall r, w
      ensures Look(after.repositories, r, w).Some? <==> ListedWorktree(cached.doc, report, r, w)
      ensures Look(after.repositories, r, w).Some? ==>
                SameWorktreeSettings(WorktreeOr(cached.doc, r, w), Look(after.repositories, r, w).value)
    {
      WorktreeListedIff(hostId, report, cached, r, w);
      if Look(after.repositories, r, w).Some? {
        WorktreeSettingsFrom(hostId, report, cached, r, w);
      }
    }
    assert SameHostSettings(before, after) <==> AgreesOnHost(before, cached.doc, report);
  }

  lemma {:induction false} FindPutWorktree(prior: Option<Repository>, worktrees: seq<Worktree>, w: string)
    ensures FindWorktree(PutWorktrees(prior, worktrees), w) ==
            var x := FindWorktree(worktrees, w); if x.Some? then Some(PutWorktree(prior, x.value)) else None
  {
    if worktrees != [] {
      FindPutWorktree(prior, worktrees[1..], w);
    }
  }

  lemma {:induction false} FindPutRepository(previous: Option<Record>, repositories: seq<Repository>, r: string)
    ensures var x, y := FindRepository(repositories, r), FindRepository(PutRepositories(previous, repositories), r);
            var prior := FindRepository(PreviousRepositories(previous), r);
            if x.None? then y.None? else y == Some(x.value.(worktrees := PutWorktrees(prior, x.value.worktrees)))
  {
    if repositories != [] {
      FindPutRepository(previous, repositories[1..], r);
    }
  }

  /** A PUT sets the labels and keeps the daemon snapshot. */
  lemma LookAfterPut(hostId: string, doc: Document, at: string, previous: Option<Record>, r: string, w: string)
    requires Accepted(Put(doc, at))
    ensures var before, sent := LookIn(previous, r, w), Look(doc.repositories, r, w);
            var after := LookIn(Some(PutRecord(hostId, doc, at, previous)), r, w);
            && (after.Some? <==> sent.Some?)
            && (after.Some? ==> after.value.labels == sent.value.labels)
            && (after.Some? ==> after.value.daemonLabels == if before.Some? then before.value.daemonLabels else None)
  {
    hide HostUnique, PutWorktrees;
    FindPutRepository(previous, doc.repositories, r);
    var x := FindRepository(doc.repositories, r);
    if x.Some? {
      FindPutWorktree(FindRepository(PreviousRepositories(previous), r), x.value.worktrees, w);
      var i :| 0 <= i < |doc.repositories| && doc.repositories[i] == x.value;
      var y := FindWorktree(x.value.worktrees, w);
      if y.Some? {
        var j :| 0 <= j < |x.value.worktrees| && x.value.worktrees[j] == y.value;
        assert y.value.daemonLabels.None?;
      }
    }
  }

  lemma {:induction false} PutShape(previous: Option<Record>, repositories: seq<Repository>)
    ensures var rs := PutRepositories(previous, repositories);
            && |rs| == |repositories|
            && (forall i :: 0 <= i < |rs| ==> rs[i].id == repositories[i].id)
            && |AllWorktrees(rs)| == |AllWorktrees(repositories)|
            && forall i :: 0 <= i < |AllWorktrees(rs)| ==>
                 var a, b := AllWorktrees(rs)[i], AllWorktrees(repositories)[i];
                 a.id == b.id && a.name == b.name && a.path == b.path
  {
    if repositories != [] {
      PutShape(previous, repositories[1..]);
      PutWorktreesShape(FindRepository(PreviousRepositories(previous), repositories[0].id), repositories[0].worktrees);
    }
  }

  lemma {:induction false} PutWorktreesShape(prior: Option<Repository>, worktrees: seq<Worktree>)
    ensures var ws := PutWorktrees(prior, worktrees);
            && |ws| == |worktrees|
            && forall i :: 0 <= i < |ws| ==> ws[i].id == worktrees[i].id && ws[i].name == worktrees[i].name && ws[i].path == worktrees[i].path
  {
    if worktrees != [] {
      PutWorktreesShape(prior, worktrees[1..]);
    }
  }

  lemma {:induction false} RunKeepsHostUnique(hostId: string, initial: Option<Record>, events: seq<Event>)
    requires HostUnique(PreviousRepositories(initial)) && AllAccepted(events)
    ensures HostUnique(PreviousRepositories(Run(hostId, initial, events)))
  {
    if events != [] {
      var prefix, e := events[..|events| - 1], events[|events| - 1];
      RunKeepsHostUnique(hostId, initial, prefix);
      StepKeepsHostUnique(hostId, Run(hostId, initial, prefix), e);
    }
  }

  lemma StepKeepsHostUnique(hostId: string, previous: Option<Record>, e: Event)
    requires HostUnique(PreviousRepositories(previous)) && Accepted(e)
    ensures HostUnique(Apply(hostId, previous, e).doc.repositories)
  {
    hide Build, PutRepositories, AllWorktrees;
    match e
    case Put(doc, at) =>
      PutShape(previous, doc.repositories);
      PutKeepsUnique(doc.repositories, PutRepositories(previous, doc.repositories));
    case Register(report) => RegistrationKeepsHostUnique(hostId, report, previous);
  }

  lemma PutKeepsUnique(xs: seq<Repository>, ys: seq<Repository>)
    requires HostUnique(xs) && |xs| == |ys| && forall i :: 0 <= i < |xs| ==> ys[i].id == xs[i].id
    requires |AllWorktrees(xs)| == |AllWorktrees(ys)|
    requires forall i :: 0 <= i < |AllWorktrees(ys)| ==>
                 var a, b := AllWorktrees(ys)[i], AllWorktrees(xs)[i];
                 a.id == b.id && a.name == b.name && a.path == b.path
    ensures HostUnique(ys)
  {
    hide AllWorktrees;
    var p, q := AllWorktrees(xs), AllWorktrees(ys);
    forall i, j | 0 <= i < j < |q|
      ensures Apart(q[i], q[j])
    {
      assert Apart(p[i], p[j]);
    }
  }

  // Labels over whole runs

  /** The daemon's snapshot before the run's next event: the latest advertised one, else the stored one. */
  ghost function Latest(initial: Option<Record>, events: seq<Event>, r: string, w: string): Option<seq<string>> {
    if events == [] then
      var wt := LookIn(initial, r, w);
      if wt.Some? then wt.value.daemonLabels else None
    else
      var e := events[|events| - 1];
      if e.Register? && Snapshot(e.report, r, w).Some? then Snapshot(e.report, r, w)
      else Latest(initial, events[..|events| - 1], r, w)
  }

  /**
   * The labels an event imposes: those of a PUT, of the registration that creates the worktree, or of a
   * registration whose snapshot differs from a known earlier one.
   */
  ghost function Imposed(initial: Option<Record>, events: seq<Event>, k: nat, r: string, w: string): Option<seq<string>>
    requires k < |events|
  {
    match events[k]
    case Put(doc, _) =>
      var sent := Look(doc.repositories, r, w);
      if sent.Some? then Some(sent.value.labels) else None
    case Register(report) =>
      var s, known := Snapshot(report, r, w), Latest(initial, events[..k], r, w);
      if s.Some? && ((k == 0 && LookIn(initial, r, w).None?) || (known.Some? && known != s)) then s else None
  }

  /** From the first event on, the worktree is in its repository. */
  ghost predicate Stays(hostId: string, initial: Option<Record>, events: seq<Event>, r: string, w: string) {
    forall k :: 0 < k <= |events| ==> LookIn(Run(hostId, initial, events[..k]), r, w).Some?
  }

  ghost predicate LatestImposed(initial: Option<Record>, events: seq<Event>, k: nat, r: string, w: string)
    requires k < |events|
  {
    && Imposed(initial, events, k, r, w).Some?
    && forall j :: k < j < |events| ==> Imposed(initial, events, j, r, w).None?
  }

  /**
   * At the end of any run the snapshot is the latest advertised one and the labels are those of the
   * latest event that imposed any; if none did, they are the labels stored before the run.
   */
  lemma {:induction false} LabelsFollowLatest(hostId: string, initial: Option<Record>, events: seq<Event>, r: string, w: string)
    requires HostUnique(PreviousRepositories(initial)) && AllAccepted(events)
    requires Stays(hostId, initial, events, r, w) && LookIn(Run(hostId, initial, events), r, w).Some?
    ensures var wt := LookIn(Run(hostId, initial, events), r, w).value;
            && wt.daemonLabels == Latest(initial, events, r, w)
            && (forall k: nat :: k < |events| && LatestImposed(initial, events, k, r, w) ==>
                  wt.labels == Imposed(initial, events, k, r, w).value)
            && ((forall k: nat :: k < |events| ==> Imposed(initial, events, k, r, w).None?) ==>
                  LookIn(initial, r, w).Some? && wt.labels == LookIn(initial, r, w).value.labels)
  {
    hide HostUnique, Accepted, LookIn, Snapshot, Apply;
    if events != [] {
      var n := |events| - 1;
      var prefix, e := events[..n], events[n];
      var before := Run(hostId, initial, prefix);
      RunKeepsHostUnique(hostId, initial, prefix);
      forall k | 0 < k <= |prefix|
        ensures LookIn(Run(hostId, initial, prefix[..k]), r, w).Some?
      {
        assert prefix[..k] == events[..k];
      }
      assert events[..|events|] == events;
      assert prefix[..n] == prefix;
      ImposedPrefix(initial, events, r, w);
      assert events == prefix + [e];
      assert n > 0 ==> LookIn(before, r, w).Some?;
      if LookIn(before, r, w).Some? {
        LabelsFollowLatest(hostId, initial, prefix, r, w);
      }
      LatestStep(initial, events, r, w);
      LastStep(hostId, initial, prefix, e, r, w);
    }
  }

  lemma ImposedPrefix(initial: Option<Record>, events: seq<Event>, r: string, w: string)
    requires events != []
    ensures var prefix := events[..|events| - 1];
            forall k: nat :: k < |prefix| ==> Imposed(initial, prefix, k, r, w) == Imposed(initial, events, k, r, w)
  {
    hide Snapshot, Latest;
    var prefix := events[..|events| - 1];
    forall k: nat | k < |prefix|
      ensures Imposed(initial, prefix, k, r, w) == Imposed(initial, events, k, r, w)
    {
      assert prefix[..k] == events[..k];
    }
  }

  /** The latest imposing event of a run is its last event or the latest imposing event before it. */
  lemma LatestStep(initial: Option<Record>, events: seq<Event>, r: string, w: string)
    requires events != []
    ensures var n := |events| - 1;
            && (forall k: nat :: k < n && LatestImposed(initial, events, k, r, w) ==>
                  LatestImposed(initial, events[..n], k, r, w) && Imposed(initial, events, n, r, w).None?)
            && (LatestImposed(initial, events, n, r, w) <==> Imposed(initial, events, n, r, w).Some?)
  {
    hide Imposed;
    ImposedPrefix(initial, events, r, w);
  }

  /** The last event sets the snapshot, and sets the labels exactly when it imposes some. */
  lemma LastStep(hostId: string, initial: Option<Record>, prefix: seq<Event>, e: Event, r: string, w: string)
    requires HostUnique(PreviousRepositories(Run(hostId, initial, prefix))) && Accepted(e)
    requires LookIn(Some(Apply(hostId, Run(hostId, initial, prefix), e)), r, w).Some?
    requires prefix == [] || LookIn(Run(hostId, initial, prefix), r, w).Some?
    requires var before := LookIn(Run(hostId, initial, prefix), r, w);
             before.Some? ==> before.value.daemonLabels == Latest(initial, prefix, r, w)
    ensures var before := LookIn(Run(hostId, initial, prefix), r, w);
            var after := LookIn(Some(Apply(hostId, Run(hostId, initial, prefix), e)), r, w).value;
            var imposed := Imposed(initial, prefix + [e], |prefix|, r, w);
            && after.daemonLabels == Latest(initial, prefix + [e], r, w)
            && (imposed.Some? ==> after.labels == imposed.value)
            && (imposed.None? ==> before.Some? && after.labels == before.value.labels)
  {
    hide HostUnique, Build, PutRecord, Snapshot, Look;
    assert (prefix + [e])[..|prefix|] == prefix;
    var before := Run(hostId, initial, prefix);
    match e
    case Put(doc, at) => LookAfterPut(hostId, doc, at, before, r, w);
    case Register(report) => LookAfterRegistration(hostId, report, before, r, w);
  }
}
