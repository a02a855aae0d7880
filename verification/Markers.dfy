/**
 Deletion markers between webhook configuration and catalog deletion
 (services/api/src/control-plane-deletion-markers.ts, control-plane-custom-webhooks.ts,
 control-plane-command-delete.ts, control-plane-delete-guards.ts): both sides hold markers, re-read
 the other side, and commit only while they still own every marker.
 */
module Markers {
  import opened Options

  /** A catalog row; its marker key carries the same prefix and id. */
  datatype Subject = Repository(id: string) | Provider(id: string) | Command(id: string)

  datatype Route = ToProvider(providerId: string) | ToCommand(commandId: string)

  datatype Webhook = Webhook(repositoryId: string, target: Route, fallbacks: seq<Route>, version: nat, generation: nat)

  datatype Marker = Marker(owner: nat, expiresAt: int)

  const LEASE_MS: int := 30000

  function RouteKey(r: Route): Subject {
    match r
    case ToProvider(id) => Provider(id)
    case ToCommand(id) => Command(id)
  }

  function Routes(hook: Webhook): seq<Route> { [hook.target] + hook.fallbacks }

  /** The keys a configuration write must hold: its repository and every routed provider or command. */
  function ReferenceKeys(hook: Webhook): set<Subject> {
    {Repository(hook.repositoryId)} + set r | r in Routes(hook) :: RouteKey(r)
  }

  method CollectReferenceKeys(hook: Webhook) returns (keys: set<Subject>)
    ensures keys == ReferenceKeys(hook)
  {
    keys := {Repository(hook.repositoryId)};
    var routes := Routes(hook);
    for i := 0 to |routes|
      invariant keys == {Repository(hook.repositoryId)} + set r | r in routes[..i] :: RouteKey(r)
    {
      keys := keys + {RouteKey(routes[i])};
      assert routes[..i + 1] == routes[..i] + [routes[i]];
    }
    assert routes[..|routes|] == routes;
  }

  predicate ReferencesProvider(hook: Webhook, id: string) {
    exists i :: 0 <= i < |Routes(hook)| && Routes(hook)[i] == ToProvider(id)
  }

  predicate ReferencesCommand(hook: Webhook, id: string) {
    exists i :: 0 <= i < |Routes(hook)| && Routes(hook)[i] == ToCommand(id)
  }

  /** What the delete guards look for in a stored integration. */
  predicate DependsOn(hook: Webhook, s: Subject) {
    match s
    case Repository(id) => hook.repositoryId == id
    case Provider(id) => ReferencesProvider(hook, id)
    case Command(id) => ReferencesCommand(hook, id)
  }

  /** The writer's fence covers exactly the rows whose deletion would find this integration. */
  lemma FenceCoversGuards(hook: Webhook, s: Subject)
    ensures DependsOn(hook, s) <==> s in ReferenceKeys(hook)
  {
    var routes := Routes(hook);
    if s in ReferenceKeys(hook) && !s.Repository? {
      var r :| r in routes && RouteKey(r) == s;
      var i :| 0 <= i < |routes| && routes[i] == r;
      assert DependsOn(hook, s);
    }
    if DependsOn(hook, s) && !s.Repository? {
      var i :| 0 <= i < |routes| && routes[i] == if s.Provider? then ToProvider(s.id) else ToCommand(s.id);
      assert routes[i] in routes;
    }
  }

  datatype Refusal = RepositoryMissing | RouteMissing(key: Subject)

  /** `validateConfiguredTargetReferences` against the rows that were read. */
  method ValidateReferences(rows: set<Subject>, hook: Webhook) returns (r: Option<Refusal>)
    ensures r.None? <==> ReferenceKeys(hook) <= rows
    ensures r.Some? && r.value.RouteMissing? ==> r.value.key in ReferenceKeys(hook) - rows
  {
    if Repository(hook.repositoryId) !in rows {
      return Some(RepositoryMissing);
    }
    var routes := Routes(hook);
    for i := 0 to |routes|
      invariant forall j :: 0 <= j < i ==> RouteKey(routes[j]) in rows
    {
      if RouteKey(routes[i]) !in rows {
        assert routes[i] in routes;
        return Some(RouteMissing(RouteKey(routes[i])));
      }
    }
    return None;
  }

  // ---- Storage primitives, each one conditional write. ----

  predicate Free(markers: map<Subject, Marker>, key: Subject, now: int) {
    key !in markers || markers[key].expiresAt <= now
  }

  predicate Held(markers: map<Subject, Marker>, key: Subject, owner: nat) {
    key in markers && markers[key].owner == owner
  }

  predicate Live(markers: map<Subject, Marker>, key: Subject, owner: nat, now: int) {
    Held(markers, key, owner) && markers[key].expiresAt > now
  }

  class MarkerStore {
    var markers: map<Subject, Marker>

    constructor ()
      ensures markers == map[]
    {
      markers := map[];
    }

    method Acquire(key: Subject, owner: nat, now: int) returns (ok: bool)
      modifies this
      ensures ok <==> key !in old(markers) || old(markers)[key].expiresAt <= now
      ensures markers == if ok then old(markers)[key := Marker(owner, now + 30000)] else old(markers)
    {
      ok := key !in markers || markers[key].expiresAt <= now;
      if ok {
        markers := markers[key := Marker(owner, now + LEASE_MS)];
      }
    }

    method Renew(key: Subject, owner: nat, now: int) returns (ok: bool)
      modifies this
      ensures ok <==> key in old(markers) && old(markers)[key].owner == owner && now < old(markers)[key].expiresAt
      ensures markers == if ok then old(markers)[key := Marker(owner, now + 30000)] else old(markers)
    {
      ok := key in markers && markers[key].owner == owner && markers[key].expiresAt > now;
      if ok {
        markers := markers[key := Marker(owner, now + LEASE_MS)];
      }
    }

    method Release(key: Subject, owner: nat)
      modifies this
      ensures markers == if key in old(markers) && old(markers)[key].owner == owner then old(markers) - {key} else old(markers)
    {
      if key in markers && markers[key].owner == owner {
        markers := markers - {key};
      }
    }

    /** Acquire every key or none: on a refusal the keys already taken are released again. */
    method AcquireAll(keys: seq<Subject>, owner: nat, now: int) returns (ok: bool)
      requires forall i, j :: 0 <= i < j < |keys| ==> keys[i] != keys[j]
      requires forall k :: k in markers ==> markers[k].owner != owner
      modifies this
      ensures ok <==> forall i :: 0 <= i < |keys| ==> Free(old(markers), keys[i], now)
      ensures ok ==> forall i :: 0 <= i < |keys| ==> Live(markers, keys[i], owner, now)
      ensures ok ==> forall k :: k !in keys ==> (k in markers <==> k in old(markers))
      ensures forall k :: k in markers && markers[k].owner != owner ==> k in old(markers) && markers[k] == old(markers)[k]
      ensures !ok ==> forall k :: k in markers ==> markers[k].owner != owner
    {
      var acquired := 0;
      while acquired < |keys|
        invariant 0 <= acquired <= |keys|
        invariant forall i :: 0 <= i < acquired ==> Free(old(markers), keys[i], now)
        invariant forall i :: 0 <= i < acquired ==> Live(markers, keys[i], owner, now)
        invariant forall k :: k in markers && markers[k].owner == owner ==> k in keys[..acquired]
        invariant forall k :: k !in keys[..acquired] ==> (k in markers <==> k in old(markers))
        invariant forall k :: k in markers && markers[k].owner != owner ==> k in old(markers) && markers[k] == old(markers)[k]
        invariant forall k :: k in old(markers) && k !in keys[..acquired] ==> k in markers && markers[k] == old(markers)[k]
      {
        assert keys[acquired] !in keys[..acquired];
        ok := Acquire(keys[acquired], owner, now);
        if !ok {
          ReleaseAll(keys[..acquired], owner);
          return false;
        }
        acquired := acquired + 1;
      }
      assert keys[..acquired] == keys;
      return true;
    }

    /** Exactly this owner's rows disappear. */
    method ReleaseAll(keys: seq<Subject>, owner: nat)
      requires forall k :: k in markers && markers[k].owner == owner ==> k in keys
      modifies this
      ensures forall k :: k in markers <==> k in old(markers) && old(markers)[k].owner != owner
      ensures forall k :: k in markers ==> markers[k] == old(markers)[k]
    {
      for i := 0 to |keys|
        invariant forall k :: k in markers ==> k in old(markers) && markers[k] == old(markers)[k]
        invariant forall k :: k in old(markers) && k !in markers ==> old(markers)[k].owner == owner
        invariant forall k :: k in markers && markers[k].owner == owner ==> k in keys[i..]
      {
        Release(keys[i], owner);
      }
    }
  }

  // ---- Every interleaving of configuration writes and catalog deletions. ----

  datatype Operation = Save(id: string, hook: Webhook) | Delete(subject: Subject)

  datatype Agent =
    | Idle
    | Locking(op: Operation, owner: nat, got: set<Subject>)
    | Validating(op: Operation, owner: nat, valid: set<Subject>)
    | Ready(op: Operation, owner: nat, current: Option<Webhook>)
    | Scanning(op: Operation, owner: nat, todo: set<string>)
    | Clear(op: Operation, owner: nat)
    | Releasing(op: Operation, owner: nat, left: set<Subject>)

  /** `owners` are the marker owners and `generations` the generations ever drawn; each operation draws new ones. */
  datatype World = World(
    catalog: set<Subject>,
    hooks: map<string, Webhook>,
    markers: map<Subject, Marker>,
    agents: map<nat, Agent>,
    owners: set<nat>,
    generations: set<nat>)

  function Keys(op: Operation): set<Subject> {
    if op.Save? then ReferenceKeys(op.hook) else {op.subject}
  }

  /** Clock readings are arbitrary, and a stored marker may vanish at any moment (`Reaped`). */
  datatype Action =
    | Begin(a: nat, op: Operation, owner: nat)
    | Acquire(a: nat, key: Subject, now: int)
    | Locked(a: nat)
    | ReadRow(a: nat, key: Subject)
    | ReadCurrent(a: nat)
    | Visit(a: nat, id: string)
    | ScanDone(a: nat)
    | Commit(a: nat, now: int)
    | RenewOne(a: nat, key: Subject, now: int)
    | ReleaseOne(a: nat, key: Subject)
    | Finish(a: nat)
    | Crash(a: nat)
    | Reaped(key: Subject)
    | RowAdded(key: Subject)
    | HookRemoved(id: string)

  function AgentOf(w: World, a: nat): Agent { if a in w.agents then w.agents[a] else Idle }

  function Become(w: World, a: nat, agent: Agent): World { w.(agents := w.agents[a := agent]) }

  predicate Allowed(w: World, act: Action) {
    act.Begin? ==> act.owner !in w.owners && (act.op.Save? ==> act.op.hook.generation !in w.generations)
  }

  /** Create needs an absent row; update needs the version and generation that were read. */
  predicate WriteCondition(w: World, id: string, current: Option<Webhook>) {
    if current.None? then id !in w.hooks
    else id in w.hooks && w.hooks[id].version == current.value.version && w.hooks[id].generation == current.value.generation
  }

  function NextHook(hook: Webhook, current: Option<Webhook>): Webhook {
    if current.None? then hook.(version := 1)
    else hook.(version := current.value.version + 1, generation := current.value.generation)
  }

  predicate OwnsAll(w: World, op: Operation, owner: nat, now: int) {
    forall key :: key in Keys(op) ==> Live(w.markers, key, owner, now)
  }

  /** The commit transaction: all marker conditions and the row condition, or nothing. */
  function DoCommit(w: World, a: nat, now: int): World {
    var agent := AgentOf(w, a);
    if agent.Ready? then
      var done := Become(w, a, Releasing(agent.op, agent.owner, Keys(agent.op)));
      if agent.op.Save? && OwnsAll(w, agent.op, agent.owner, now) && WriteCondition(w, agent.op.id, agent.current) then
        done.(hooks := w.hooks[agent.op.id := NextHook(agent.op.hook, agent.current)])
      else done
    else if agent.Clear? then
      var done := Become(w, a, Releasing(agent.op, agent.owner, Keys(agent.op)));
      if agent.op.Delete? && OwnsAll(w, agent.op, agent.owner, now) then done.(catalog := w.catalog - {agent.op.subject})
      else done
    else w
  }

  function DoAcquire(w: World, a: nat, key: Subject, now: int): World {
    var agent := AgentOf(w, a);
    if !agent.Locking? || key !in Keys(agent.op) || key in agent.got then w
    else if Free(w.markers, key, now) then
      Become(w, a, Locking(agent.op, agent.owner, agent.got + {key}))
        .(markers := w.markers[key := Marker(agent.owner, now + LEASE_MS)])
    else Become(w, a, Releasing(agent.op, agent.owner, agent.got))
  }

  function DoReadRow(w: World, a: nat, key: Subject): World {
    var agent := AgentOf(w, a);
    if !agent.Validating? || key !in Keys(agent.op) then w
    else if key in w.catalog then Become(w, a, Validating(agent.op, agent.owner, agent.valid + {key}))
    else Become(w, a, Releasing(agent.op, agent.owner, Keys(agent.op)))
  }

  /** The deleter reads the integrations one by one; a dependent one stops it. */
  function DoVisit(w: World, a: nat, id: string): World {
    var agent := AgentOf(w, a);
    if !agent.Scanning? then w
    else if agent.op.Delete? && id in w.hooks && DependsOn(w.hooks[id], agent.op.subject) then
      Become(w, a, Releasing(agent.op, agent.owner, Keys(agent.op)))
    else Become(w, a, Scanning(agent.op, agent.owner, agent.todo - {id}))
  }

  function Step(w: World, act: Action): World {
    match act
    case Begin(a, op, owner) =>
      if AgentOf(w, a).Idle? then
        Become(w, a, Locking(op, owner, {})).(
        owners := w.owners + {owner},
        generations := if op.Save? then w.generations + {op.hook.generation} else w.generations)
      else w
    case Acquire(a, key, now) => DoAcquire(w, a, key, now)
    case Locked(a) =>
      var agent := AgentOf(w, a);
      if agent.Locking? && agent.got == Keys(agent.op) then
        Become(w, a, if agent.op.Save? then Validating(agent.op, agent.owner, {})
                     else Scanning(agent.op, agent.owner, w.hooks.Keys))
      else w
    case ReadRow(a, key) => DoReadRow(w, a, key)
    case ReadCurrent(a) =>
      var agent := AgentOf(w, a);
      if agent.Validating? && agent.op.Save? && agent.valid == Keys(agent.op) then
        Become(w, a, Ready(agent.op, agent.owner,
                           if agent.op.id in w.hooks then Some(w.hooks[agent.op.id]) else None))
      else w
    case Visit(a, id) => DoVisit(w, a, id)
    case ScanDone(a) =>
      var agent := AgentOf(w, a);
      if agent.Scanning? && agent.todo == {} then Become(w, a, Clear(agent.op, agent.owner)) else w
    case Commit(a, now) => DoCommit(w, a, now)
    case RenewOne(a, key, now) =>
      var agent := AgentOf(w, a);
      if !agent.Idle? && Live(w.markers, key, agent.owner, now) then
        w.(markers := w.markers[key := Marker(agent.owner, now + LEASE_MS)])
      else w
    case ReleaseOne(a, key) =>
      var agent := AgentOf(w, a);
      if agent.Releasing? && key in agent.left then
        Become(w, a, Releasing(agent.op, agent.owner, agent.left - {key}))
          .(markers := if Held(w.markers, key, agent.owner) then w.markers - {key} else w.markers)
      else w
    case Finish(a) =>
      var agent := AgentOf(w, a);
      if agent.Releasing? && agent.left == {} then Become(w, a, Idle) else w
    case Crash(a) => Become(w, a, Idle)
    case Reaped(key) => w.(markers := w.markers - {key})
    case RowAdded(key) => w.(catalog := w.catalog + {key})
    case HookRemoved(id) => w.(hooks := w.hooks - {id})
  }

  function Run(w: World, acts: seq<Action>): World {
    if acts == [] then w else Step(Run(w, acts[..|acts| - 1]), acts[|acts| - 1])
  }

  ghost predicate AllowedRun(w: World, acts: seq<Action>) {
    acts == [] || (AllowedRun(w, acts[..|acts| - 1]) && Allowed(Run(w, acts[..|acts| - 1]), acts[|acts| - 1]))
  }

  /** No stored integration references a row that is not in the catalog. */
  ghost predicate Safe(w: World) {
    forall id :: id in w.hooks ==> ReferenceKeys(w.hooks[id]) <= w.catalog
  }

  ghost predicate NoDependents(w: World, s: Subject, except: set<string>) {
    forall id :: id in w.hooks && s in ReferenceKeys(w.hooks[id]) ==> id in except
  }

  /** What an agent may rely on for the keys whose markers it still holds. */
  ghost predicate AgentOk(w: World, agent: Agent) {
    match agent
    case Idle => true
    case Locking(op, owner, got) =>
      && owner in w.owners && got <= Keys(op)
      && forall key :: Held(w.markers, key, owner) ==> key in got
    case Validating(op, owner, valid) =>
      && owner in w.owners && valid <= Keys(op)
      && forall key :: key in valid && Held(w.markers, key, owner) ==> key in w.catalog
    case Ready(op, owner, _) =>
      && owner in w.owners
      && forall key :: key in Keys(op) && Held(w.markers, key, owner) ==> key in w.catalog
    case Scanning(op, owner, todo) =>
      owner in w.owners && (op.Delete? && Held(w.markers, op.subject, owner) ==> NoDependents(w, op.subject, todo))
    case Clear(op, owner) =>
      owner in w.owners && (op.Delete? && Held(w.markers, op.subject, owner) ==> NoDependents(w, op.subject, {}))
    case Releasing(_, owner, _) => owner in w.owners
  }

  ghost predicate Distinct(x: Agent, y: Agent) { !x.Idle? && !y.Idle? ==> x.owner != y.owner }

  ghost predicate Inv(w: World) {
    && Safe(w)
    && (forall a :: a in w.agents ==> AgentOk(w, w.agents[a]))
    && (forall a, b :: a in w.agents && b in w.agents && a != b ==> Distinct(w.agents[a], w.agents[b]))
    && (forall key :: key in w.markers ==> w.markers[key].owner in w.owners)
  }

  ghost predicate Start(w: World) {
    && Safe(w) && w.agents == map[]
    && (forall key :: key in w.markers ==> w.markers[key].owner in w.owners)
    && (forall id :: id in w.hooks ==> w.hooks[id].generation in w.generations)
  }

  /** Nothing another agent relies on is disturbed. */
  ghost predicate Harmless(w: World, next: World, owner: Option<nat>) {
    && w.owners <= next.owners
    && (forall key, o: nat :: Held(next.markers, key, o) && Some(o) != owner && o in w.owners ==> Held(w.markers, key, o))
    && (forall key :: key in w.catalog && key !in next.catalog ==> owner.Some? && Held(w.markers, key, owner.value))
    && (forall id :: id in next.hooks && !(id in w.hooks && w.hooks[id] == next.hooks[id]) ==>
          owner.Some? && forall key :: key in ReferenceKeys(next.hooks[id]) ==> Held(w.markers, key, owner.value))
  }

  lemma OthersStayOk(w: World, next: World, owner: Option<nat>, agent: Agent)
    requires AgentOk(w, agent) && Harmless(w, next, owner)
    requires !agent.Idle? ==> owner != Some(agent.owner)
    ensures AgentOk(next, agent)
  {
    hide ReferenceKeys;
    if agent.Scanning? || agent.Clear? {
      if agent.op.Delete? && Held(next.markers, agent.op.subject, agent.owner) {
        var s := agent.op.subject;
        assert Held(w.markers, s, agent.owner);
        forall id | id in next.hooks && s in ReferenceKeys(next.hooks[id])
          ensures id in w.hooks && w.hooks[id] == next.hooks[id]
        {
        }
      }
    }
  }

  /** An agent moves while the others keep what they rely on. */
  lemma MoveKeepsInv(w: World, next: World, a: nat, owner: Option<nat>)
    requires Inv(w) && Safe(next) && Harmless(w, next, owner)
    requires next.agents == w.agents[a := AgentOf(next, a)] && AgentOk(next, AgentOf(next, a))
    requires owner.Some? && (AgentOf(next, a).Idle? || AgentOf(next, a).owner == owner.value)
    requires owner.value !in w.owners || (!AgentOf(w, a).Idle? && AgentOf(w, a).owner == owner.value)
    requires forall key :: key in next.markers ==> next.markers[key].owner in next.owners
    ensures Inv(next)
  {
    hide Safe, Harmless, ReferenceKeys;
    forall b | b in w.agents && b != a
      ensures AgentOk(next, w.agents[b]) && Distinct(AgentOf(next, a), w.agents[b]) && Distinct(w.agents[b], AgentOf(next, a))
    {
      assert AgentOk(w, w.agents[b]);
      if a in w.agents {
        assert Distinct(w.agents[a], w.agents[b]);
      }
      if !w.agents[b].Idle? {
        assert w.agents[b].owner in w.owners;
      }
      OthersStayOk(w, next, owner, w.agents[b]);
    }
  }

  /** A step of the environment: no agent changes. */
  lemma EnvironmentKeepsInv(w: World, next: World)
    requires Inv(w) && Safe(next) && Harmless(w, next, None) && next.agents == w.agents
    requires forall key :: key in next.markers ==> next.markers[key].owner in next.owners
    ensures Inv(next)
  {
    hide Safe, Harmless, ReferenceKeys;
    forall b | b in w.agents
      ensures AgentOk(next, w.agents[b])
    {
      OthersStayOk(w, next, None, w.agents[b]);
    }
  }

  lemma SameReferences(hook: Webhook, current: Option<Webhook>)
    ensures ReferenceKeys(NextHook(hook, current)) == ReferenceKeys(hook)
  {
    assert Routes(NextHook(hook, current)) == Routes(hook);
  }

  lemma SaveKeepsInv(w: World, a: nat, now: int)
    requires Inv(w) && AgentOf(w, a).Ready?
    ensures Inv(DoCommit(w, a, now))
  {
    hide ReferenceKeys, NextHook;
    var agent, next := AgentOf(w, a), DoCommit(w, a, now);
    assert AgentOk(w, agent);
    if agent.op.Save? {
      SameReferences(agent.op.hook, agent.current);
    }
    MoveKeepsInv(w, next, a, Some(agent.owner));
  }

  lemma DeleteKeepsInv(w: World, a: nat, now: int)
    requires Inv(w) && AgentOf(w, a).Clear?
    ensures Inv(DoCommit(w, a, now))
  {
    hide ReferenceKeys;
    var agent, next := AgentOf(w, a), DoCommit(w, a, now);
    assert AgentOk(w, agent);
    MoveKeepsInv(w, next, a, Some(agent.owner));
  }

  lemma AcquireKeepsInv(w: World, a: nat, key: Subject, now: int)
    requires Inv(w)
    ensures Inv(DoAcquire(w, a, key, now))
  {
    hide ReferenceKeys;
    var agent, next := AgentOf(w, a), DoAcquire(w, a, key, now);
    if next != w {
      assert AgentOk(w, agent);
      MoveKeepsInv(w, next, a, Some(agent.owner));
    }
  }

  lemma VisitKeepsInv(w: World, a: nat, id: string)
    requires Inv(w)
    ensures Inv(DoVisit(w, a, id))
  {
    hide ReferenceKeys, DependsOn;
    var agent, next := AgentOf(w, a), DoVisit(w, a, id);
    if agent.Scanning? {
      assert AgentOk(w, agent);
      if agent.op.Delete? && id in w.hooks {
        FenceCoversGuards(w.hooks[id], agent.op.subject);
      }
      MoveKeepsInv(w, next, a, Some(agent.owner));
    }
  }

  lemma StepKeepsInv(w: World, act: Action)
    requires Inv(w) && Allowed(w, act)
    ensures Inv(Step(w, act))
  {
    hide ReferenceKeys, DoCommit, DoAcquire, DoVisit;
    var next := Step(w, act);
    if next != w {
      match act
      case Commit(a, now) =>
        if AgentOf(w, a).Ready? {
          SaveKeepsInv(w, a, now);
        } else if AgentOf(w, a).Clear? {
          DeleteKeepsInv(w, a, now);
        } else {
          CommitElsewhere(w, a, now);
        }
      case Acquire(a, key, now) => AcquireKeepsInv(w, a, key, now);
      case Visit(a, id) => VisitKeepsInv(w, a, id);
      case Reaped(_) => EnvironmentKeepsInv(w, next);
      case RowAdded(_) => EnvironmentKeepsInv(w, next);
      case HookRemoved(_) => EnvironmentKeepsInv(w, next);
      case Begin(a, op, owner) => MoveKeepsInv(w, next, a, Some(owner));
      case _ => AgentKeepsInv(w, act);
    }
  }

  lemma CommitElsewhere(w: World, a: nat, now: int)
    requires !AgentOf(w, a).Ready? && !AgentOf(w, a).Clear?
    ensures DoCommit(w, a, now) == w
  {
  }

  /** The remaining steps only move one agent along. */
  lemma AgentKeepsInv(w: World, act: Action)
    requires Inv(w)
    requires act.Locked? || act.ReadRow? || act.ReadCurrent? || act.ScanDone? || act.RenewOne? || act.ReleaseOne? ||
             act.Finish? || act.Crash?
    ensures Inv(Step(w, act))
  {
    hide ReferenceKeys, DoCommit, DoAcquire, DoVisit, DependsOn;
    var agent, next := AgentOf(w, act.a), Step(w, act);
    if next != w {
      if act.a in w.agents {
        assert AgentOk(w, agent);
      }
      if agent.Idle? {
        assert act.Crash?;
        IdleKeepsInv(w, act.a);
      } else {
        assert next.agents == w.agents[act.a := AgentOf(next, act.a)];
        MoveKeepsInv(w, next, act.a, Some(agent.owner));
      }
    }
  }

  lemma IdleKeepsInv(w: World, a: nat)
    requires Inv(w) && AgentOf(w, a).Idle?
    ensures Inv(Become(w, a, Idle))
  {
    hide ReferenceKeys;
    var next := Become(w, a, Idle);
    forall b | b in next.agents
      ensures AgentOk(next, next.agents[b])
    {
      if b != a {
        OthersStayOk(w, next, None, w.agents[b]);
      }
    }
  }

  lemma {:induction false} RunKeepsInv(w: World, acts: seq<Action>)
    requires Inv(w) && AllowedRun(w, acts)
    ensures Inv(Run(w, acts))
  {
    hide Step, Inv;
    if acts != [] {
      RunKeepsInv(w, acts[..|acts| - 1]);
      StepKeepsInv(Run(w, acts[..|acts| - 1]), acts[|acts| - 1]);
    }
  }

  /** In every run, with markers lost at any moment, no stored integration references a deleted row. */
  lemma NoDanglingReference(w: World, acts: seq<Action>)
    requires Start(w) && AllowedRun(w, acts)
    ensures Safe(Run(w, acts))
  {
    hide Run, AllowedRun, Safe;
    RunKeepsInv(w, acts);
  }

  /** An agent's step changes another owner's marker only by taking it over once it has expired. */
  lemma ForeignMarkers(w: World, act: Action, key: Subject)
    requires !act.Reaped? && !act.RowAdded? && !act.HookRemoved? && key in w.markers
    requires AgentOf(w, act.a).Idle? || w.markers[key].owner != AgentOf(w, act.a).owner
    ensures (key in Step(w, act).markers && Step(w, act).markers[key] == w.markers[key]) ||
            (act.Acquire? && act.key == key && w.markers[key].expiresAt <= act.now)
  {
    hide ReferenceKeys;
  }

  /** At any moment a marker is free, or live for exactly one owner. */
  lemma FreeOrLive(markers: map<Subject, Marker>, key: Subject, now: int)
    ensures Free(markers, key, now) <==> forall o :: !Live(markers, key, o, now)
    ensures forall o, p :: Live(markers, key, o, now) && Live(markers, key, p, now) ==> o == p
  {
    if !Free(markers, key, now) {
      assert Live(markers, key, markers[key].owner, now);
    }
  }

  /** A marker that was taken or renewed keeps every other agent out for half a minute. */
  lemma MarkerExcludes(w: World, a: nat, b: nat, key: Subject, now: int, later: int)
    requires Inv(w) && a in w.agents && b in w.agents && a != b && later < now + 30000
    requires !AgentOf(w, a).Idle? && Live(w.markers, key, AgentOf(w, a).owner, now)
    ensures var renewed := Step(w, RenewOne(a, key, now));
            && Live(renewed.markers, key, AgentOf(w, a).owner, later)
            && Step(renewed, Acquire(b, key, later)).markers == renewed.markers
            && Step(renewed, ReleaseOne(b, key)).markers == renewed.markers
  {
    hide ReferenceKeys;
    assert Distinct(w.agents[a], w.agents[b]);
  }

  // ---- Undisturbed operations take effect. ----

  lemma Pick<T>(s: set<T>) returns (x: T)
    requires s != {}
    ensures x in s
  {
    assert (forall y :: y !in s) ==> s == {};
    x :| x in s;
  }

  lemma PickOutside<T>(all: set<T>, some: set<T>) returns (x: T)
    requires some <= all && some != all
    ensures x in all && x !in some
  {
    assert (forall y :: y in all ==> y in some) ==> all == some;
    x :| x in all && x !in some;
  }

  ghost predicate Reaches(w: World, end: World) {
    exists acts :: AllowedRun(w, acts) && Run(w, acts) == end
  }

  lemma ReachesSelf(w: World)
    ensures Reaches(w, w)
  {
    assert AllowedRun(w, []) && Run(w, []) == w;
  }

  lemma ReachesStep(w: World, mid: World, act: Action)
    requires Reaches(w, mid) && Allowed(mid, act)
    ensures Reaches(w, Step(mid, act))
  {
    hide Step, Allowed;
    var acts :| AllowedRun(w, acts) && Run(w, acts) == mid;
    var more := acts + [act];
    assert more[..|more| - 1] == acts;
    assert AllowedRun(w, more) && Run(w, more) == Step(mid, act);
  }

  lemma {:induction false} AcquireRest(w: World, mid: World, a: nat, now: int) returns (end: World)
    requires Reaches(w, mid) && AgentOf(mid, a).Locking?
    requires AgentOf(mid, a).got <= Keys(AgentOf(mid, a).op)
    requires forall key :: key in AgentOf(mid, a).got ==> Live(mid.markers, key, AgentOf(mid, a).owner, now)
    requires forall key :: key in Keys(AgentOf(mid, a).op) - AgentOf(mid, a).got ==> Free(mid.markers, key, now)
    requires OnlyIn(mid.markers, AgentOf(mid, a).owner, Keys(AgentOf(mid, a).op))
    ensures Reaches(w, end) && end.catalog == mid.catalog && end.hooks == mid.hooks
    ensures AgentOf(end, a) == Locking(AgentOf(mid, a).op, AgentOf(mid, a).owner, Keys(AgentOf(mid, a).op))
    ensures OwnsAll(end, AgentOf(mid, a).op, AgentOf(mid, a).owner, now)
    ensures OnlyIn(end.markers, AgentOf(mid, a).owner, Keys(AgentOf(mid, a).op))
    decreases Keys(AgentOf(mid, a).op) - AgentOf(mid, a).got
  {
    hide Reaches, ReferenceKeys;
    var agent := AgentOf(mid, a);
    if agent.got == Keys(agent.op) {
      end := mid;
    } else {
      var rest := Keys(agent.op) - agent.got;
      var key := PickOutside(Keys(agent.op), agent.got);
      ReachesStep(w, mid, Acquire(a, key, now));
      var next := Step(mid, Acquire(a, key, now));
      assert Keys(agent.op) - (agent.got + {key}) == rest - {key};
      end := AcquireRest(w, next, a, now);
    }
  }

  lemma {:induction false} ReadRest(w: World, mid: World, a: nat) returns (end: World)
    requires Reaches(w, mid) && AgentOf(mid, a).Validating? && AgentOf(mid, a).valid <= Keys(AgentOf(mid, a).op) <= mid.catalog
    ensures Reaches(w, end) && end == Become(mid, a, Validating(AgentOf(mid, a).op, AgentOf(mid, a).owner, Keys(AgentOf(mid, a).op)))
    decreases Keys(AgentOf(mid, a).op) - AgentOf(mid, a).valid
  {
    hide Reaches, ReferenceKeys;
    var agent := AgentOf(mid, a);
    if agent.valid == Keys(agent.op) {
      end := mid;
      assert mid.agents[a := mid.agents[a]] == mid.agents;
    } else {
      var rest := Keys(agent.op) - agent.valid;
      var key := PickOutside(Keys(agent.op), agent.valid);
      ReachesStep(w, mid, ReadRow(a, key));
      var next := Step(mid, ReadRow(a, key));
      assert Keys(agent.op) - (agent.valid + {key}) == rest - {key};
      end := ReadRest(w, next, a);
    }
  }

  lemma {:induction false} VisitRest(w: World, mid: World, a: nat) returns (end: World)
    requires Reaches(w, mid) && AgentOf(mid, a).Scanning? && AgentOf(mid, a).op.Delete?
    requires forall id :: id in mid.hooks ==> !DependsOn(mid.hooks[id], AgentOf(mid, a).op.subject)
    ensures Reaches(w, end) && end == Become(mid, a, Scanning(AgentOf(mid, a).op, AgentOf(mid, a).owner, {}))
    decreases AgentOf(mid, a).todo
  {
    hide Reaches, DependsOn;
    var agent := AgentOf(mid, a);
    if agent.todo == {} {
      end := mid;
      assert mid.agents[a := mid.agents[a]] == mid.agents;
    } else {
      var id := Pick(agent.todo);
      ReachesStep(w, mid, Visit(a, id));
      end := VisitRest(w, Step(mid, Visit(a, id)), a);
    }
  }

  /** The stored integration says what the configuration says. */
  ghost predicate Configured(stored: Webhook, hook: Webhook) {
    stored.repositoryId == hook.repositoryId && stored.target == hook.target && stored.fallbacks == hook.fallbacks
  }

  /** Markers of `owner` are confined to `left`. */
  ghost predicate OnlyIn(markers: map<Subject, Marker>, owner: nat, left: set<Subject>) {
    forall key :: key in markers && markers[key].owner == owner ==> key in left
  }

  lemma {:induction false} ReleaseRest(w: World, mid: World, a: nat) returns (end: World)
    requires Reaches(w, mid) && AgentOf(mid, a).Releasing? && OnlyIn(mid.markers, AgentOf(mid, a).owner, AgentOf(mid, a).left)
    ensures Reaches(w, end) && end.catalog == mid.catalog && end.hooks == mid.hooks
    ensures AgentOf(end, a).Idle? && OnlyIn(end.markers, AgentOf(mid, a).owner, {})
    decreases AgentOf(mid, a).left
  {
    hide Reaches;
    var agent := AgentOf(mid, a);
    if agent.left == {} {
      ReachesStep(w, mid, Finish(a));
      end := Step(mid, Finish(a));
    } else {
      var key := Pick(agent.left);
      ReachesStep(w, mid, ReleaseOne(a, key));
      end := ReleaseRest(w, Step(mid, ReleaseOne(a, key)), a);
    }
  }

  /** A write whose references exist and whose keys are free stores the integration at its next version. */
  lemma UndisturbedSaveStores(w: World, a: nat, owner: nat, id: string, hook: Webhook, now: int) returns (end: World)
    requires AgentOf(w, a).Idle? && owner !in w.owners && hook.generation !in w.generations && ReferenceKeys(hook) <= w.catalog
    requires forall key :: key in w.markers ==> w.markers[key].owner in w.owners
    requires forall key :: key in ReferenceKeys(hook) ==> Free(w.markers, key, now)
    ensures Reaches(w, end) && end.catalog == w.catalog && end.hooks.Keys == w.hooks.Keys + {id}
    ensures forall other :: other in w.hooks && other != id ==> end.hooks[other] == w.hooks[other]
    ensures Configured(end.hooks[id], hook)
    ensures if id in w.hooks
            then end.hooks[id].version == w.hooks[id].version + 1 && end.hooks[id].generation == w.hooks[id].generation
            else end.hooks[id].version == 1 && end.hooks[id].generation == hook.generation
    ensures AgentOf(end, a).Idle? && forall key :: key in end.markers ==> end.markers[key].owner != owner
  {
    hide Reaches, ReferenceKeys;
    var op := Save(id, hook);
    ReachesSelf(w);
    ReachesStep(w, w, Begin(a, op, owner));
    var locked := AcquireRest(w, Step(w, Begin(a, op, owner)), a, now);
    ReachesStep(w, locked, Locked(a));
    var mid := Step(locked, Locked(a));
    var read := ReadRest(w, mid, a);
    ReachesStep(w, read, ReadCurrent(a));
    var ready := Step(read, ReadCurrent(a));
    assert OwnsAll(ready, op, owner, now);
    ReachesStep(w, ready, Commit(a, now));
    end := ReleaseRest(w, Step(ready, Commit(a, now)), a);
  }

  /** A deletion that finds no dependent integration and a free marker removes the row. */
  lemma UndisturbedDeleteRemoves(w: World, a: nat, owner: nat, s: Subject, now: int) returns (end: World)
    requires AgentOf(w, a).Idle? && owner !in w.owners && Free(w.markers, s, now)
    requires forall key :: key in w.markers ==> w.markers[key].owner in w.owners
    requires forall id :: id in w.hooks ==> !DependsOn(w.hooks[id], s)
    ensures Reaches(w, end) && end.hooks == w.hooks && end.catalog == w.catalog - {s}
    ensures AgentOf(end, a).Idle? && forall key :: key in end.markers ==> end.markers[key].owner != owner
  {
    hide Reaches, DependsOn;
    var op := Delete(s);
    ReachesSelf(w);
    ReachesStep(w, w, Begin(a, op, owner));
    var locked := AcquireRest(w, Step(w, Begin(a, op, owner)), a, now);
    ReachesStep(w, locked, Locked(a));
    var scanned := VisitRest(w, Step(locked, Locked(a)), a);
    ReachesStep(w, scanned, ScanDone(a));
    var ready := Step(scanned, ScanDone(a));
    assert OwnsAll(ready, op, owner, now);
    ReachesStep(w, ready, Commit(a, now));
    end := ReleaseRest(w, Step(ready, Commit(a, now)), a);
  }
}
