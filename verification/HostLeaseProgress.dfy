/** How a registration gets on: retries, failures and the rollback (services/api/src/control-plane-agents.ts). */
module HostLeaseProgress {
  import opened Options
  import opened Inventory
  import opened Registration
  import opened HostLease

  /** Whether some step of a registration can be retried, and how often it was. */
  ghost predicate Bounded(g: Agent) {
    match g.phase
    case Committing(attempt) => attempt <= 2
    case Rereading(attempt) => attempt <= 2
    case Republishing(attempt, _) => attempt <= 2
    case _ => true
  }

  lemma StepKeepsBounded(w: World, a: Action)
    requires forall c :: c in w.agents ==> Bounded(w.agents[c])
    ensures forall c :: c in Do(w, a).agents ==> Bounded(Do(w, a).agents[c])
  {
    hide Build;
  }

  /** In every run a version conflict is retried at most twice. */
  lemma AtMostTwoRetries(store: Store, acts: seq<Action>, c: string)
    requires c in Run(World(store, map[]), acts).agents
    ensures Bounded(Run(World(store, map[]), acts).agents[c])
  {
    AllBounded(store, acts);
  }

  lemma {:induction false} AllBounded(store: Store, acts: seq<Action>)
    ensures forall c :: c in Run(World(store, map[]), acts).agents ==> Bounded(Run(World(store, map[]), acts).agents[c])
  {
    hide Do, Bounded;
    if acts != [] {
      AllBounded(store, acts[..|acts| - 1]);
      StepKeepsBounded(Run(World(store, map[]), acts[..|acts| - 1]), acts[|acts| - 1]);
    }
  }

  /** A commit that meets another version stores nothing and reads again, or gives up after the second retry. */
  lemma ConflictEffect(w: World, c: string, references: bool)
    requires c in w.agents && w.agents[c].phase.Committing?
    requires if w.store.inventory.None? then VersionOf(w.agents[c].base) != 0 else w.store.inventory.value.version != VersionOf(w.agents[c].base)
    ensures var next, n := Do(w, Step(c, Commit(references))), w.agents[c].phase.attempt;
            && next.store == w.store
            && next.agents == w.agents[c := w.agents[c].(phase := if n < 2 then Rereading(n + 1) else Listing)]
  {
    hide Build;
  }

  lemma RereadEffect(w: World, c: string)
    requires c in w.agents && w.agents[c].phase.Rereading?
    ensures var g, n := w.agents[c], w.agents[c].phase.attempt;
            Do(w, Step(c, Reread)) ==
            World(w.store, w.agents[c := g.(base := w.store.inventory, fromCache := false,
                                            phase := if g.plan == [] then Committing(n) else Republishing(n, 0))])
  {
    hide Build;
  }

  lemma RepublishStep(w: World, c: string, n: nat, k: nat)
    requires c in w.agents && w.agents[c].phase == Republishing(n, k) && k < |w.agents[c].plan|
    requires Holds(w.store, c) && NoneBusy(w.store.rows, w.agents[c].plan)
    ensures var g, next := w.agents[c], Do(w, Step(c, Move.Put));
            && next.store == w.store.(rows := w.store.rows[g.plan[k].id := Row(g.plan[k].online, false, Some(c))])
            && c in next.agents && next.agents[c].phase == (if k + 1 < |g.plan| then Republishing(n, k + 1) else Committing(n))
            && next.agents[c].base == g.base && next.agents[c].report == g.report && next.agents[c].hostId == g.hostId
            && next.agents[c].plan == g.plan && NoneBusy(next.store.rows, g.plan)
            && next.agents[c].published == g.published + {g.plan[k].id}
  {
    hide Build;
  }

  lemma {:induction false} RepublishAll(w: World, c: string, n: nat, k: nat)
    requires c in w.agents && w.agents[c].phase == Republishing(n, k) && k < |w.agents[c].plan|
    requires Holds(w.store, c) && NoneBusy(w.store.rows, w.agents[c].plan)
    ensures var g, end := w.agents[c], Run(w, Puts(c, |w.agents[c].plan| - k));
            && end.store == w.store.(rows := PublishRows(w.store.rows, c, g.plan[k..]))
            && c in end.agents && end.agents[c].phase == Committing(n)
            && end.agents[c].base == g.base && end.agents[c].report == g.report && end.agents[c].hostId == g.hostId
            && (forall i :: k <= i < |g.plan| ==> g.plan[i].id in end.agents[c].published)
            && g.published <= end.agents[c].published
    decreases |w.agents[c].plan| - k
  {
    hide Do;
    var g := w.agents[c];
    var next := Do(w, Step(c, Move.Put));
    RepublishStep(w, c, n, k);
    RunFirst(w, Step(c, Move.Put), Puts(c, |g.plan| - k - 1));
    assert g.plan[k..][1..] == g.plan[k + 1..];
    if k + 1 < |g.plan| {
      RepublishAll(next, c, n, k + 1);
    } else {
      assert g.plan[k + 1..] == [];
    }
  }

  /**
   * A first or second conflict costs a registration nothing: left alone from there, it publishes its rows again and
   * commits its report merged into the document that it then finds.
   */
  lemma RetryCommits(w: World, c: string, references: bool)
    requires c in w.agents && w.agents[c].phase.Committing? && w.agents[c].phase.attempt < 2
    requires Holds(w.store, c) && NoneBusy(w.store.rows, w.agents[c].plan)
    requires !VersionMatches(w.store, VersionOf(w.agents[c].base))
    ensures var g := w.agents[c];
            var end := Run(w, [Step(c, Commit(references))] + ([Step(c, Reread)] + (Puts(c, |g.plan|) + [Step(c, Commit(true))])));
            && c in end.agents && end.agents[c].phase.Committed? && end.store.lock == w.store.lock
            && end.store.inventory == Some(Build(g.hostId, g.report, w.store.inventory))
            && end.store.rows == PublishRows(w.store.rows, c, g.plan)
  {
    hide Build, Do, Run, PublishRows;
    var g, n := w.agents[c], w.agents[c].phase.attempt + 1;
    ConflictEffect(w, c, references);
    var lost := Do(w, Step(c, Commit(references)));
    RereadEffect(lost, c);
    var again := Do(lost, Step(c, Reread));
    RunFirst(w, Step(c, Commit(references)), [Step(c, Reread)] + (Puts(c, |g.plan|) + [Step(c, Commit(true))]));
    RunFirst(lost, Step(c, Reread), Puts(c, |g.plan|) + [Step(c, Commit(true))]);
    RunConcat(again, Puts(c, |g.plan|), [Step(c, Commit(true))]);
    if g.plan == [] {
      NoPuts(again, c);
    } else {
      assert g.plan[0..] == g.plan;
      RepublishAll(again, c, n, 0);
    }
    CommitNow(Run(again, Puts(c, |g.plan|)), c);
  }

  lemma CommitNow(w: World, c: string)
    requires c in w.agents && w.agents[c].phase.Committing? && Holds(w.store, c) && VersionMatches(w.store, VersionOf(w.agents[c].base))
    ensures var end := Run(w, [Step(c, Commit(true))]);
            && c in end.agents && end.agents[c].phase.Committed?
            && end.store == w.store.(inventory := Some(Build(w.agents[c].hostId, w.agents[c].report, w.agents[c].base)))
  {
    hide Build;
    RunSnoc(w, [], Step(c, Commit(true)));
    assert [] + [Step(c, Commit(true))] == [Step(c, Commit(true))];
    RunNothing(w);
  }

  // Failures

  /** A refused or failing write, a lost lease or reference, and giving up all lead to the rollback. */
  lemma FailureRollsBack(w: World, c: string, m: Move)
    requires c in w.agents
    requires var g, s := w.agents[c], w.store;
             || (m.Put? && NextPut(g).Some? && (!Holds(s, c) || (NextPut(g).value.id in s.rows && s.rows[NextPut(g).value.id].busy)))
             || (m.PutThrows? && NextPut(g).Some?)
             || (m.CommitThrows? && g.phase.Committing?)
             || (m.Commit? && g.phase.Committing? && VersionMatches(s, VersionOf(g.base)) && (!Holds(s, c) || !m.references))
             || (m.GiveUp? && (g.phase.Won? || g.phase.Reconciling? || g.phase.Committing? || g.phase.Rereading?))
    ensures c in Do(w, Step(c, m)).agents && Do(w, Step(c, m)).agents[c].phase.Listing?
    ensures !m.PutThrows? && !m.CommitThrows? ==> Do(w, Step(c, m)).store == w.store
  {
    hide Build;
  }

  /** A write that failed to answer may have landed, and then did what it would have done. */
  lemma LandedWrites(w: World, c: string)
    requires c in w.agents && Holds(w.store, c)
    ensures var g := w.agents[c];
            && (NextPut(g).Some? && !(NextPut(g).value.id in w.store.rows && w.store.rows[NextPut(g).value.id].busy) ==>
                  var p, next := NextPut(g).value, Do(w, Step(c, PutThrows(true)));
                  next.store == w.store.(rows := w.store.rows[p.id := Row(p.online, false, Some(c))]) && p.id in next.agents[c].wrote
                  && next.agents[c].published == g.published)
            && (g.phase.Committing? && VersionMatches(w.store, VersionOf(g.base)) ==>
                  Do(w, Step(c, CommitThrows(true))).store == w.store.(inventory := Some(Build(g.hostId, g.report, g.base))))
            && Do(w, Step(c, PutThrows(false))).store == w.store && Do(w, Step(c, CommitThrows(false))).store == w.store
  {
    hide Build;
  }

  /** A failed reconciliation gives a busy row of its own back, offline and with the older stamp. */
  lemma RestoreEffect(w: World, c: string, id: string, older: Option<string>)
    requires c in w.agents && w.agents[c].phase.Reconciling? && Holds(w.store, c)
    requires id in w.store.rows && w.store.rows[id].busy && w.store.rows[id].conn == Some(c)
    ensures Do(w, Step(c, Restore(id, older))).store == w.store.(rows := w.store.rows[id := Row(false, true, older)])
  {
    hide Build;
  }

  // The rollback comes to an end

  lemma OfflineEffect(w: World, c: string, id: string)
    requires c in w.agents && w.agents[c].phase.Offlining? && id in w.agents[c].phase.todo
    ensures var g, next := w.agents[c], Do(w, Step(c, Offline(id)));
            && next.agents == w.agents[c := g.(phase := Offlining(g.phase.todo - {id}))] && next.store.lock == w.store.lock
            && (CanSetOnline(w.store, c, id) ==> next.store == w.store.(rows := w.store.rows[id := w.store.rows[id].(online := false)]))
            && (!CanSetOnline(w.store, c, id) ==> next.store == w.store)
  {
    hide Build;
  }

  lemma {:induction false} OffliningEnds(w: World, c: string) returns (moves: seq<Move>)
    requires c in w.agents && w.agents[c].phase.Offlining?
    ensures var end := Run(w, Steps(c, moves)); c in end.agents && end.agents[c].phase == Offlining({})
    decreases w.agents[c].phase.todo
  {
    hide Do, CanSetOnline;
    var todo := w.agents[c].phase.todo;
    if todo == {} {
      moves := [];
      RunNothing(w);
      assert Steps(c, []) == [];
    } else {
      assert (forall x :: x !in todo) ==> todo == {};
      var id :| id in todo;
      OfflineEffect(w, c, id);
      var rest := OffliningEnds(Do(w, Step(c, Offline(id))), c);
      moves := [Offline(id)] + rest;
      StepsConcat(c, [Offline(id)], rest);
      assert Steps(c, [Offline(id)]) == [Step(c, Offline(id))] by { OneStep(c, Offline(id)); }
      RunFirst(w, Step(c, Offline(id)), Steps(c, rest));
    }
  }

  /** Left alone, a rollback ends, with the lease released. */
  lemma RollbackEnds(w: World, c: string) returns (moves: seq<Move>)
    requires c in w.agents && w.agents[c].phase.Listing? && Holds(w.store, c)
    ensures var end := Run(w, Steps(c, moves)); c in end.agents && end.agents[c].phase.Failed? && end.store.lock == Some(Lock(c, true))
  {
    hide Run, Do;
    var listed := Do(w, Step(c, List));
    assert c in listed.agents && listed.agents[c].phase.Offlining? && Holds(listed.store, c) by { ListEffect(w, c); }
    var offline := OffliningEnds(listed, c);
    var mid := Run(listed, Steps(c, offline));
    moves := [List] + offline + [Unlock, Unlock];
    RollbackSteps(c, offline);
    RunFirst(w, Step(c, List), Steps(c, offline) + [Step(c, Unlock), Step(c, Unlock)]);
    RunConcat(listed, Steps(c, offline), [Step(c, Unlock), Step(c, Unlock)]);
    LeaseStays(listed, offline, c);
    UnlockTwice(mid, c);
  }

  lemma {:induction false} StepsConcat(c: string, a: seq<Move>, b: seq<Move>)
    ensures Steps(c, a + b) == Steps(c, a) + Steps(c, b)
    decreases b
  {
    if b == [] {
      assert a + b == a;
    } else {
      StepsConcat(c, a, b[..|b| - 1]);
      assert (a + b)[..|a + b| - 1] == a + b[..|b| - 1];
    }
  }

  lemma OneStep(c: string, m: Move)
    ensures Steps(c, [m]) == [Step(c, m)]
  {
    assert [m][..0] == [];
  }

  lemma RollbackSteps(c: string, offline: seq<Move>)
    ensures Steps(c, [List] + offline + [Unlock, Unlock]) == [Step(c, List)] + (Steps(c, offline) + [Step(c, Unlock), Step(c, Unlock)])
  {
    OneStep(c, List);
    OneStep(c, Unlock);
    StepsConcat(c, [Unlock], [Unlock]);
    assert [Unlock] + [Unlock] == [Unlock, Unlock];
    StepsConcat(c, [List], offline);
    StepsConcat(c, [List] + offline, [Unlock, Unlock]);
  }

  lemma ListEffect(w: World, c: string)
    requires c in w.agents && w.agents[c].phase.Listing?
    ensures var next := Do(w, Step(c, List)); c in next.agents && next.agents[c].phase.Offlining? && next.store == w.store
  {
    hide Build;
  }

  lemma UnlockTwice(w: World, c: string)
    requires c in w.agents && w.agents[c].phase == Offlining({}) && Holds(w.store, c)
    ensures var end := Run(w, [Step(c, Unlock), Step(c, Unlock)]);
            c in end.agents && end.agents[c].phase.Failed? && end.store == w.store.(lock := Some(Lock(c, true)))
  {
    hide Build;
    RunFirst(w, Step(c, Unlock), [Step(c, Unlock)]);
    assert [Step(c, Unlock)] + [Step(c, Unlock)] == [Step(c, Unlock), Step(c, Unlock)];
    var mid := Do(w, Step(c, Unlock));
    RunFirst(mid, Step(c, Unlock), []);
    assert [Step(c, Unlock)] + [] == [Step(c, Unlock)];
    RunNothing(Do(mid, Step(c, Unlock)));
  }

  /** No step of its own takes the lease from a registration, only its release changes the lock. */
  lemma {:induction false} LeaseStays(w: World, moves: seq<Move>, c: string)
    requires Holds(w.store, c)
    ensures Holds(Run(w, Steps(c, moves)).store, c)
  {
    hide Do;
    if moves != [] {
      var n := |moves| - 1;
      LeaseStays(w, moves[..n], c);
      assert Steps(c, moves)[..|Steps(c, moves)| - 1] == Steps(c, moves[..n]);
      OwnStepHolds(Run(w, Steps(c, moves[..n])), c, moves[n]);
    }
  }

  lemma OwnStepHolds(w: World, c: string, m: Move)
    requires Holds(w.store, c)
    ensures Holds(Do(w, Step(c, m)).store, c)
  {
    hide Build;
  }
}
