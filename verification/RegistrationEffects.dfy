/** What a registration and an operator's PUT leave in a host record (services/api/src/control-plane-agent-registration.ts). */
module RegistrationEffects {
  import opened Options
  import opened Inventory
  import opened Registration
  import opened RegistrationUnique
  import opened RegistrationRuns

  predicate Known(s: Option<string>) { s.Some? && s.value != "" }

  /** The host part: capabilities and time are the reported ones, configured pools win over reported ones. */
  lemma HostAfterRegistration(hostId: string, report: Report, previous: Option<Record>)
    ensures var after := Build(hostId, report, previous);
            && after.hostId == hostId && after.updatedAt == report.at && after.doc.capabilities == report.capabilities
            && after.doc.updateConfig.None?
            && (previous.None? ==>
                  && after.version == 1 && after.doc.workspacePools == report.workspacePools && after.doc.providerAccounts == []
                  && after.doc.setupScript.None? && after.doc.setupCacheInputs.None? && after.doc.setupCacheHostInputs.None?
                  && after.doc.allowedRoots.None? && after.doc.requiredEnvironment.None?)
            && (previous.Some? ==>
                  && after.version == previous.value.version + 1
                  && SameHostSettings(previous.value.doc, after.doc)
                  && (previous.value.doc.workspacePools.None? ==> after.doc.workspacePools == report.workspacePools))
  {
    hide MergeRepositories, Unregistered, NextDaemon;
  }

  /** A record without an identity reported keeps what is known of the daemon; the runtime is the reported one, or kept. */
  lemma DaemonWithoutIdentity(hostId: string, report: Report, previous: Option<Record>)
    requires report.identity.None?
    ensures var before, after := DaemonOf(previous), Build(hostId, report, previous).daemon;
            && after.instanceId == (if Known(before.instanceId) then before.instanceId else None)
            && after.startedAt == (if Known(before.startedAt) then before.startedAt else None)
            && after.lastRestartDetectedAt == (if Known(before.lastRestartDetectedAt) then before.lastRestartDetectedAt else None)
            && after.restartCount == before.restartCount
            && after.runtime == (if report.runtime.Some? then report.runtime else before.runtime)
  {
    hide MergeRepositories, Unregistered;
  }

  /** With an identity: a new instance of a known daemon is a restart now; the same one keeps its start. */
  lemma DaemonWithIdentity(hostId: string, report: Report, previous: Option<Record>)
    requires report.identity.Some?
    ensures var before, after, id := DaemonOf(previous), Build(hostId, report, previous).daemon, report.identity.value;
            var restarted := before.instanceId.Some? && before.instanceId.value != id.instanceId;
            && after.instanceId == Some(id.instanceId) && after.runtime == report.runtime
            && (restarted ==> after.startedAt == Some(id.startedAt) && after.lastRestartDetectedAt == Some(report.at))
            && (before.instanceId.None? ==> after.startedAt == Some(id.startedAt))
            && (before.instanceId == Some(id.instanceId) ==>
                  after.startedAt == if Known(before.startedAt) then before.startedAt else Some(id.startedAt))
            && (!restarted ==>
                  after.lastRestartDetectedAt == if Known(before.lastRestartDetectedAt) then before.lastRestartDetectedAt else None)
            && after.restartCount == Some(OrElse(before.restartCount, 0) + if restarted then 1 else 0)
  {
    hide MergeRepositories, Unregistered;
  }

  // Repositories and worktrees

  lemma {:induction false} FirstAdvertAt(adv: seq<Advertised>, i: nat)
    requires i < |adv| && UniqueAdvertised(adv)
    ensures FirstAdvert(InRepository(adv, adv[i].repositoryId), adv[i].id) == Some(adv[i])
  {
    var r, w := adv[i].repositoryId, adv[i].id;
    var rest := InRepository(adv[1..], r);
    if i > 0 {
      assert UniqueAdvertised(adv[1..]) by { UniqueTailAdvertised(adv); }
      FirstAdvertAt(adv[1..], i - 1);
      assert adv[0].id != w;
      if adv[0].repositoryId == r {
        assert ([adv[0]] + rest)[1..] == rest;
      } else {
        assert [] + rest == rest;
      }
    }
  }

  lemma UniqueTailAdvertised(adv: seq<Advertised>)
    requires adv != [] && UniqueAdvertised(adv)
    ensures UniqueAdvertised(adv[1..])
  {
  }

  /** A registered repository lies where the daemon says, on its branch; every other one is as it was. */
  lemma RepositoryAfterRegistration(hostId: string, report: Report, previous: Option<Record>, r: string)
    requires HostUnique(PreviousRepositories(previous))
    ensures var before := FindRepository(PreviousRepositories(previous), r);
            var after := FindRepository(Build(hostId, report, previous).doc.repositories, r);
            && (r in Ids(report.repositories) ==>
                  && after.Some? && after.value.id == r
                  && exists reg :: reg in report.repositories && reg.id == r && after.value.path == reg.path
                                   && after.value.defaultBranch == (if reg.defaultBranch.Some? then reg.defaultBranch.value
                                                                    else if before.Some? then before.value.defaultBranch else "main"))
            && (r !in Ids(report.repositories) && after.Some? ==>
                  before.Some? && after.value.path == before.value.path && after.value.defaultBranch == before.value.defaultBranch)
  {
    hide MergeRepositories, Unregistered, MergeWorktrees, Unadvertised, InRepository, Unique, AllWorktrees, NextDaemon;
    var prev, registered, adv := PreviousRepositories(previous), report.repositories, report.worktrees;
    var merged, kept := MergeRepositories(previous, registered, adv), Unregistered(prev, registered, adv);
    FindRepositoryConcat(merged, kept, r);
    FindMergedRepository(previous, registered, adv, r);
    PriorIsFound(prev, r);
    if r !in Ids(registered) {
      FindKept(prev, registered, adv, r);
    }
  }

  /** A stored repository that is not registered stays exactly if no registered one lies at its path. */
  lemma UnregisteredStaysIff(hostId: string, report: Report, previous: Option<Record>, r: string)
    requires HostUnique(PreviousRepositories(previous)) && r !in Ids(report.repositories)
    ensures var before := FindRepository(PreviousRepositories(previous), r);
            FindRepository(Build(hostId, report, previous).doc.repositories, r).Some? <==>
            before.Some? && forall reg :: reg in report.repositories ==> reg.path != before.value.path
  {
    hide MergeRepositories, Unregistered, AllWorktrees, Unique, NextDaemon;
    var prev, registered, adv := PreviousRepositories(previous), report.repositories, report.worktrees;
    FindRepositoryConcat(MergeRepositories(previous, registered, adv), Unregistered(prev, registered, adv), r);
    FindMergedRepository(previous, registered, adv, r);
    FindKept(prev, registered, adv, r);
    assert forall reg :: reg in registered <==> exists i :: 0 <= i < |registered| && registered[i] == reg;
  }

  /** Every worktree that the daemon advertises in a repository it registers is listed there, under its name and path. */
  lemma AdvertisedIsListed(hostId: string, report: Report, previous: Option<Record>, i: nat)
    requires HostUnique(PreviousRepositories(previous)) && UniqueAdvertised(report.worktrees)
    requires i < |report.worktrees| && report.worktrees[i].repositoryId in Ids(report.repositories)
    ensures var a := report.worktrees[i];
            var after := LookIn(Some(Build(hostId, report, previous)), a.repositoryId, a.id);
            after.Some? && after.value.id == a.id && after.value.name == a.name && after.value.path == a.path
  {
    hide MergeRepositories, Unregistered, MergeRepository, Unadvertised, InRepository, Unique, AllWorktrees, NextDaemon, UniqueAdvertised;
    var prev, registered, adv := PreviousRepositories(previous), report.repositories, report.worktrees;
    var r := adv[i].repositoryId;
    FindRepositoryConcat(MergeRepositories(previous, registered, adv), Unregistered(prev, registered, adv), r);
    FindMergedRepository(previous, registered, adv, r);
    var reg :| reg in registered && reg.id == r
               && FindRepository(MergeRepositories(previous, registered, adv), r) == Some(MergeRepository(previous, reg, adv));
    AdvertisedInMerge(previous, reg, adv, i);
  }

  lemma AdvertisedInMerge(previous: Option<Record>, reg: Registered, adv: seq<Advertised>, i: nat)
    requires i < |adv| && adv[i].repositoryId == reg.id && UniqueAdvertised(adv)
    ensures var after := FindWorktree(MergeRepository(previous, reg, adv).worktrees, adv[i].id);
            after.Some? && after.value.id == adv[i].id && after.value.name == adv[i].name && after.value.path == adv[i].path
  {
    hide MergeWorktrees, Unadvertised, InRepository, UniqueAdvertised, RegisteredLabels;
    var prior := LastRepository(PreviousRepositories(previous), reg.id);
    var mine := InRepository(adv, reg.id);
    FindWorktreeConcat(MergeWorktrees(previous, prior, mine), Unadvertised(if prior.Some? then prior.value.worktrees else [], adv), adv[i].id);
    FindMerged(previous, prior, mine, adv[i].id);
    FirstAdvertAt(adv, i);
  }

  // An operator's PUT

  lemma {:induction false} PutWorktreesAt(prior: Option<Repository>, worktrees: seq<Worktree>, j: nat)
    requires j < |worktrees|
    ensures |PutWorktrees(prior, worktrees)| == |worktrees|
    ensures PutWorktrees(prior, worktrees)[j] == PutWorktree(prior, worktrees[j])
  {
    if j > 0 {
      PutWorktreesAt(prior, worktrees[1..], j - 1);
    } else if |worktrees| > 1 {
      PutWorktreesAt(prior, worktrees[1..], 0);
    }
  }

  lemma {:induction false} PutRepositoriesAt(previous: Option<Record>, repositories: seq<Repository>, i: nat)
    requires i < |repositories|
    ensures |PutRepositories(previous, repositories)| == |repositories|
    ensures PutRepositories(previous, repositories)[i] ==
            repositories[i].(worktrees := PutWorktrees(FindRepository(PreviousRepositories(previous), repositories[i].id), repositories[i].worktrees))
  {
    hide PutWorktrees;
    if i > 0 {
      PutRepositoriesAt(previous, repositories[1..], i - 1);
    } else if |repositories| > 1 {
      PutRepositoriesAt(previous, repositories[1..], 0);
    }
  }

  /** The document is stored as it was submitted, at the next version; what is known of the daemon stays. */
  lemma PutStoresDocument(hostId: string, doc: Document, at: string, previous: Option<Record>)
    ensures var after, before := PutRecord(hostId, doc, at, previous), DaemonOf(previous);
            && after.hostId == hostId && after.updatedAt == at
            && after.version == (if previous.Some? then previous.value.version + 1 else 1)
            && after.doc == doc.(repositories := after.doc.repositories)
            && after.daemon.instanceId == (if Known(before.instanceId) then before.instanceId else None)
            && after.daemon.startedAt == (if Known(before.startedAt) then before.startedAt else None)
            && after.daemon.lastRestartDetectedAt == (if Known(before.lastRestartDetectedAt) then before.lastRestartDetectedAt else None)
            && after.daemon.restartCount == before.restartCount && after.daemon.runtime == before.runtime
  {
    hide PutRepositories;
  }

  /** So is every worktree, except that it takes over the snapshot stored for it. */
  lemma PutStoresWorktree(hostId: string, doc: Document, at: string, previous: Option<Record>, i: nat, j: nat)
    requires i < |doc.repositories| && j < |doc.repositories[i].worktrees|
    ensures var rs, before := PutRecord(hostId, doc, at, previous).doc.repositories, LookIn(previous, doc.repositories[i].id, doc.repositories[i].worktrees[j].id);
            && |rs| == |doc.repositories| && |rs[i].worktrees| == |doc.repositories[i].worktrees|
            && rs[i] == doc.repositories[i].(worktrees := rs[i].worktrees)
            && (var wt, submitted := rs[i].worktrees[j], doc.repositories[i].worktrees[j];
                && wt == submitted.(daemonLabels := wt.daemonLabels)
                && wt.daemonLabels == if before.Some? && before.value.daemonLabels.Some? then before.value.daemonLabels else submitted.daemonLabels)
  {
    PutRepositoriesAt(previous, doc.repositories, i);
    PutWorktreesAt(FindRepository(PreviousRepositories(previous), doc.repositories[i].id), doc.repositories[i].worktrees, j);
    hide PutRepositories, PutWorktrees;
  }
}
