/** Optimistic versions of webhook configurations (services/api/src/control-plane-custom-webhooks.ts). */
module MarkersVersions {
  import opened Options
  import opened Markers

  /** How a stored integration may change in one step. */
  ghost predicate Succeeds(w: World, next: World, act: Action, id: string)
    requires id in next.hooks
  {
    && act.Commit? && AgentOf(w, act.a).Ready? && AgentOf(w, act.a).op.Save? && AgentOf(w, act.a).op.id == id
    && Configured(next.hooks[id], AgentOf(w, act.a).op.hook)
    && (if id in w.hooks
        then next.hooks[id].version == w.hooks[id].version + 1 && next.hooks[id].generation == w.hooks[id].generation
        else next.hooks[id].version == 1 && next.hooks[id].generation == AgentOf(w, act.a).op.hook.generation)
  }

  /** A stored integration changes only by a save of it: the next version of the same generation, or the first of a new one. */
  lemma ChangesOnlyBySave(w: World, act: Action, id: string)
    requires id in Step(w, act).hooks && !(id in w.hooks && Step(w, act).hooks[id] == w.hooks[id])
    ensures Succeeds(w, Step(w, act), act, id)
  {
    hide ReferenceKeys;
  }

  /** Whatever is stored under the generation that was read is that record, or a later version of it. */
  ghost predicate ReadOk(w: World, id: string, read: Webhook) {
    && read.generation in w.generations
    && (id in w.hooks && w.hooks[id].generation == read.generation ==>
          w.hooks[id].version >= read.version && (w.hooks[id].version == read.version ==> w.hooks[id] == read))
  }

  ghost predicate AgentReadOk(w: World, agent: Agent) {
    && (!agent.Idle? && agent.op.Save? ==> agent.op.hook.generation in w.generations)
    && (agent.Ready? ==> agent.op.Save?)
    && (agent.Ready? && agent.current.Some? ==> ReadOk(w, agent.op.id, agent.current.value))
  }

  /** The generation that an unfinished save has drawn is in no record, unless it is already past its commit. */
  ghost predicate Unused(w: World, agent: Agent) {
    !agent.Idle? && agent.op.Save? && !agent.Releasing? ==>
      forall id :: id in w.hooks ==> w.hooks[id].generation != agent.op.hook.generation
  }

  ghost predicate ReadsOf(agent: Agent, generation: nat) {
    agent.Ready? && agent.current.Some? && agent.current.value.generation == generation
  }

  ghost predicate Draws(agent: Agent, generation: nat) { !agent.Idle? && agent.op.Save? && agent.op.hook.generation == generation }

  /** No two agents work with the same drawn generation, and nobody has read a record of an uncommitted one. */
  ghost predicate Apart(a: Agent, b: Agent) {
    !a.Idle? && a.op.Save? && !a.Releasing? ==> !Draws(b, a.op.hook.generation) && !ReadsOf(b, a.op.hook.generation)
  }

  ghost predicate VersionInv(w: World) {
    && (forall id :: id in w.hooks ==> w.hooks[id].generation in w.generations)
    && (forall a :: a in w.agents ==> AgentReadOk(w, w.agents[a]) && Unused(w, w.agents[a]))
    && (forall a, b :: a in w.agents && b in w.agents && a != b ==> Apart(w.agents[a], w.agents[b]))
  }

  /** One agent moves; no record appears or changes. */
  lemma MoveKeepsVersions(w: World, next: World, a: nat)
    requires VersionInv(w) && w.generations <= next.generations && next.agents == w.agents[a := AgentOf(next, a)]
    requires forall id :: id in next.hooks ==> id in w.hooks && next.hooks[id] == w.hooks[id]
    requires AgentReadOk(next, AgentOf(next, a)) && Unused(next, AgentOf(next, a))
    requires forall b :: b in w.agents && b != a ==> Apart(AgentOf(next, a), w.agents[b]) && Apart(w.agents[b], AgentOf(next, a))
    ensures VersionInv(next)
  {
    hide Apart;
    forall b | b in next.agents
      ensures AgentReadOk(next, next.agents[b]) && Unused(next, next.agents[b])
    {
      if b != a {
        assert AgentReadOk(w, w.agents[b]) && Unused(w, w.agents[b]);
      }
    }
  }

  lemma BeginKeepsVersions(w: World, a: nat, op: Operation, owner: nat)
    requires VersionInv(w) && Allowed(w, Begin(a, op, owner)) && AgentOf(w, a).Idle?
    ensures VersionInv(Step(w, Begin(a, op, owner)))
  {
    var next := Step(w, Begin(a, op, owner));
    forall b | b in w.agents && b != a
      ensures Apart(AgentOf(next, a), w.agents[b]) && Apart(w.agents[b], AgentOf(next, a))
    {
      assert AgentReadOk(w, w.agents[b]);
    }
    MoveKeepsVersions(w, next, a);
  }

  lemma ReadKeepsVersions(w: World, a: nat)
    requires VersionInv(w)
    ensures VersionInv(Step(w, ReadCurrent(a)))
  {
    hide ReferenceKeys;
    var next := Step(w, ReadCurrent(a));
    if next != w {
      assert AgentReadOk(w, w.agents[a]) && Unused(w, w.agents[a]);
      forall b | b in w.agents && b != a
        ensures Apart(AgentOf(next, a), w.agents[b]) && Apart(w.agents[b], AgentOf(next, a))
      {
        assert Apart(w.agents[a], w.agents[b]) && Apart(w.agents[b], w.agents[a]);
        assert Unused(w, w.agents[b]);
      }
      MoveKeepsVersions(w, next, a);
    }
  }

  /** The agent keeps its operation and reads nothing. */
  ghost predicate Onward(before: Agent, after: Agent) {
    after.Idle? || after == before || (!before.Idle? && !after.Ready? && after.op == before.op && (before.Releasing? ==> after.Releasing?))
  }

  lemma OnwardKeepsVersions(w: World, next: World, a: nat)
    requires VersionInv(w) && next.generations == w.generations && next.agents == w.agents[a := AgentOf(next, a)]
    requires forall id :: id in next.hooks ==> id in w.hooks && next.hooks[id] == w.hooks[id]
    requires Onward(AgentOf(w, a), AgentOf(next, a))
    ensures VersionInv(next)
  {
    if a in w.agents {
      assert AgentReadOk(w, w.agents[a]) && Unused(w, w.agents[a]);
    }
    forall b | b in w.agents && b != a
      ensures Apart(AgentOf(next, a), w.agents[b]) && Apart(w.agents[b], AgentOf(next, a))
    {
      if a in w.agents {
        assert Apart(w.agents[a], w.agents[b]) && Apart(w.agents[b], w.agents[a]);
      }
    }
    MoveKeepsVersions(w, next, a);
  }

  /** A save was committed. */
  lemma SaveKeepsVersions(w: World, a: nat, now: int, id: string)
    requires VersionInv(w) && id in Step(w, Commit(a, now)).hooks
    requires !(id in w.hooks && Step(w, Commit(a, now)).hooks[id] == w.hooks[id])
    ensures VersionInv(Step(w, Commit(a, now)))
  {
    var next := Step(w, Commit(a, now));
    ChangesOnlyBySave(w, Commit(a, now), id);
    CommitShape(w, a, now);
    hide ReferenceKeys, OwnsAll, Step;
    var agent := w.agents[a];
    assert AgentReadOk(w, agent) && Unused(w, agent);
    forall b | b in w.agents && b != a
      ensures AgentReadOk(next, w.agents[b]) && Unused(next, w.agents[b])
      ensures Apart(next.agents[a], w.agents[b]) && Apart(w.agents[b], next.agents[a])
    {
      assert AgentReadOk(w, w.agents[b]) && Unused(w, w.agents[b]);
      assert Apart(agent, w.agents[b]) && Apart(w.agents[b], agent);
    }
  }

  /** A commit moves its agent to releasing and changes at most the integration it saves. */
  lemma CommitShape(w: World, a: nat, now: int)
    ensures var next, agent := Step(w, Commit(a, now)), AgentOf(w, a);
            && next.generations == w.generations
            && (agent.Ready? || agent.Clear? ==> next.agents == w.agents[a := Releasing(agent.op, agent.owner, Keys(agent.op))])
            && (!agent.Ready? && !agent.Clear? ==> next == w)
            && (forall id :: id in w.hooks ==> id in next.hooks)
            && (forall id :: id in next.hooks && !(id in w.hooks && next.hooks[id] == w.hooks[id]) ==>
                  agent.Ready? && agent.op.Save? && agent.op.id == id)
  {
    hide ReferenceKeys, OwnsAll;
  }

  lemma CommitKeepsVersions(w: World, a: nat, now: int)
    requires VersionInv(w)
    ensures VersionInv(Step(w, Commit(a, now)))
  {
    var next := Step(w, Commit(a, now));
    CommitShape(w, a, now);
    hide ReferenceKeys, OwnsAll, Step, VersionInv;
    if id :| id in next.hooks && !(id in w.hooks && next.hooks[id] == w.hooks[id]) {
      SaveKeepsVersions(w, a, now, id);
    } else if next != w {
      OnwardKeepsVersions(w, next, a);
    }
  }

  lemma StepKeepsVersions(w: World, act: Action)
    requires VersionInv(w) && Allowed(w, act)
    ensures VersionInv(Step(w, act))
  {
    hide ReferenceKeys, VersionInv, DependsOn;
    var next := Step(w, act);
    if next != w {
      match act
      case Begin(a, op, owner) => BeginKeepsVersions(w, a, op, owner);
      case ReadCurrent(a) => ReadKeepsVersions(w, a);
      case Commit(a, now) => CommitKeepsVersions(w, a, now);
      case Reaped(_) => SameVersions(w, next);
      case RowAdded(_) => SameVersions(w, next);
      case HookRemoved(_) => SameVersions(w, next);
      case RenewOne(_, _, _) => SameVersions(w, next);
      case _ => OnwardKeepsVersions(w, next, act.a);
    }
  }

  lemma SameVersions(w: World, next: World)
    requires VersionInv(w) && next.agents == w.agents && next.generations == w.generations
    requires forall id :: id in next.hooks ==> id in w.hooks && next.hooks[id] == w.hooks[id]
    ensures VersionInv(next)
  {
    hide Apart;
    forall b | b in next.agents
      ensures AgentReadOk(next, next.agents[b]) && Unused(next, next.agents[b])
    {
      assert AgentReadOk(w, w.agents[b]) && Unused(w, w.agents[b]);
    }
  }

  lemma {:induction false} RunKeepsVersions(w: World, acts: seq<Action>)
    requires Start(w) && AllowedRun(w, acts)
    ensures VersionInv(Run(w, acts))
  {
    hide Step;
    if acts != [] {
      hide VersionInv;
      RunKeepsVersions(w, acts[..|acts| - 1]);
      StepKeepsVersions(Run(w, acts[..|acts| - 1]), acts[|acts| - 1]);
    }
  }

  /**
   * In every run, with integrations removed and created again under the same id at any moment: a save that replaces
   * a stored integration had read exactly the one it replaces.
   */
  lemma NoLostUpdate(w: World, acts: seq<Action>, act: Action, id: string)
    requires Start(w) && AllowedRun(w, acts) && id in Run(w, acts).hooks && id in Step(Run(w, acts), act).hooks
    requires Step(Run(w, acts), act).hooks[id] != Run(w, acts).hooks[id]
    ensures AgentOf(Run(w, acts), act.a).Ready? && AgentOf(Run(w, acts), act.a).current == Some(Run(w, acts).hooks[id])
  {
    hide Run, AllowedRun, ReferenceKeys, OwnsAll;
    var mid := Run(w, acts);
    RunKeepsVersions(w, acts);
    ChangesOnlyBySave(mid, act, id);
    assert AgentReadOk(mid, mid.agents[act.a]);
  }

  /** A save that read another version or generation than the stored one, or missed a creation or a removal, changes nothing. */
  lemma StaleSaveRefused(w: World, a: nat, now: int)
    requires AgentOf(w, a).Ready? && AgentOf(w, a).op.Save?
    requires var id, current := AgentOf(w, a).op.id, AgentOf(w, a).current;
             if current.None? then id in w.hooks
             else id !in w.hooks || w.hooks[id].version != current.value.version || w.hooks[id].generation != current.value.generation
    ensures Step(w, Commit(a, now)).hooks == w.hooks
  {
  }
}
