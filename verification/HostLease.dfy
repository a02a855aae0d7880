/**
 * Durable host registration under a connection lease (services/api/src/control-plane-agents.ts). Several
 * processes register the same host at once; each storage call is one step, and any of them may fail.
 */
module HostLease {
  import opened Options
  import opened Inventory
  import opened Registration
  import opened RegistrationUnique
  import opened RegistrationRuns

  /** The lock row survives a disconnect; only the flag says that the lease is free. */
  datatype Lock = Lock(conn: string, disconnected: bool)

  datatype Row = Row(online: bool, busy: bool, conn: Option<string>)

  datatype Store = Store(lock: Option<Lock>, rows: map<string, Row>, inventory: Option<Record>)

  // Conditional storage calls

  predicate Holds(s: Store, c: string) { s.lock.Some? && s.lock.value.conn == c }

  predicate CanRegister(s: Store, replace: bool, existing: Option<string>) {
    s.lock.None? || if replace && existing.Some? then s.lock.value.conn == existing.value else s.lock.value.disconnected
  }

  function Acquire(s: Store, c: string): Store { s.(lock := Some(Lock(c, false))) }

  predicate CanPut(s: Store, c: string, id: string) { Holds(s, c) && (id in s.rows ==> !s.rows[id].busy) }

  function PutRow(s: Store, c: string, id: string, online: bool): Store {
    s.(rows := s.rows[id := Row(online, false, Some(c))])
  }

  predicate CanSetOnline(s: Store, c: string, id: string) {
    Holds(s, c) && id in s.rows && (s.rows[id].conn.Some? ==> s.rows[id].conn.value == c)
  }

  function SetOnline(s: Store, id: string, online: bool): Store
    requires id in s.rows
  {
    s.(rows := s.rows[id := s.rows[id].(online := online)])
  }

  function Release(s: Store, c: string): Store {
    if Holds(s, c) then s.(lock := Some(Lock(c, true))) else s
  }

  function VersionOf(inventory: Option<Record>): nat { if inventory.Some? then inventory.value.version else 0 }

  /** Version 0 stands for "no versioned row": an absent row also meets it. */
  predicate VersionMatches(s: Store, expected: nat) {
    if s.inventory.None? then expected == 0 else s.inventory.value.version == expected
  }

  // One registration

  datatype Planned = Planned(id: string, online: bool)

  datatype Phase =
    | Waiting | Lost | Won | Based
    | Publishing(done: nat) | Reconciling
    | Committing(attempt: nat) | Rereading(attempt: nat) | Republishing(attempt: nat, done: nat)
    | Listing | Offlining(todo: set<string>) | Releasing
    | Failed | Broken | Committed

  /**
   * `wrote` are the existing rows this registration has written and `erased` those from which another writer
   * has since removed its stamp; `unstamped` is what `erased` held when the rollback listed the rows, and
   * `reopened` are the rows that others brought online since then.
   */
  datatype Agent = Agent(
    phase: Phase, hostId: string, report: Report, cached: Option<Record>,
    plan: seq<Planned>, base: Option<Record>, fromCache: bool,
    published: set<string>, wrote: set<string>, erased: set<string>, unstamped: set<string>, reopened: set<string>)

  datatype Move =
    | TryRegister(replace: bool, existing: Option<string>)
    | Read
    | Plan(plan: seq<Planned>)
    | Put
    | PutThrows(landed: bool)
    | Stamp(id: string, row: Row)
    | Restore(id: string, older: Option<string>)
    | Reconciled
    | Commit(references: bool)
    | CommitThrows(landed: bool)
    | Reread
    | GiveUp
    | List
    | Offline(id: string)
    | Unlock
    | Crash

  function Built(g: Agent): Record { Build(g.hostId, g.report, g.base) }

  function OwnRows(s: Store, c: string): set<string> {
    set id | id in s.rows && s.rows[id].conn == Some(c)
  }

  function NextPut(g: Agent): Option<Planned> {
    match g.phase
    case Publishing(done) => if done < |g.plan| then Some(g.plan[done]) else None
    case Republishing(_, done) => if done < |g.plan| then Some(g.plan[done]) else None
    case _ => None
  }

  function AfterPut(g: Agent): Phase {
    match g.phase
    case Publishing(done) => if done + 1 < |g.plan| then Publishing(done + 1) else Reconciling
    case Republishing(attempt, done) => if done + 1 < |g.plan| then Republishing(attempt, done + 1) else Committing(attempt)
    case _ => g.phase
  }

  function Wrote(g: Agent, id: string): Agent { g.(wrote := g.wrote + {id}, erased := g.erased - {id}) }

  function DoPut(s: Store, c: string, g: Agent): (Store, Agent) {
    if NextPut(g).None? then (s, g)
    else
      var p := NextPut(g).value;
      if CanPut(s, c, p.id) then
        (PutRow(s, c, p.id, p.online), Wrote(g, p.id).(phase := AfterPut(g), published := g.published + {p.id}))
      else (s, g.(phase := Listing))
  }

  function DoCommit(s: Store, c: string, g: Agent, references: bool): (Store, Agent) {
    if !g.phase.Committing? then (s, g)
    else if !VersionMatches(s, VersionOf(g.base)) then
      (s, g.(phase := if g.phase.attempt >= 2 then Listing else Rereading(g.phase.attempt + 1)))
    else if !Holds(s, c) || !references then (s, g.(phase := Listing))
    else (s.(inventory := Some(Built(g))), g.(phase := Committed))
  }

  /**
   * Steps from winning the lease to committing. When reconciliation fails, `Restore` gives a busy row back to the
   * connection it belonged to before, offline.
   */
  function Forward(s: Store, c: string, g: Agent, m: Move): (Store, Agent) {
    match m
    case TryRegister(replace, existing) =>
      if !g.phase.Waiting? then (s, g)
      else if CanRegister(s, replace, existing) then (Acquire(s, c), g.(phase := Won))
      else (s, g.(phase := Lost))
    case Read =>
      if !g.phase.Won? then (s, g)
      else (s, g.(phase := Based, base := if s.inventory.Some? then s.inventory else g.cached,
                  fromCache := s.inventory.None? && g.cached.Some?))
    case Plan(plan) =>
      if g.phase.Based? then (s, g.(plan := plan, phase := if plan == [] then Reconciling else Publishing(0))) else (s, g)
    case Put => DoPut(s, c, g)
    case PutThrows(landed) =>
      if NextPut(g).None? then (s, g)
      else
        var p := NextPut(g).value;
        if landed && CanPut(s, c, p.id) then (PutRow(s, c, p.id, p.online), Wrote(g, p.id).(phase := Listing))
        else (s, g.(phase := Listing))
    case Stamp(id, row) =>
      if g.phase.Reconciling? && Holds(s, c) && id in s.rows then
        (s.(rows := s.rows[id := row.(conn := Some(c))]), Wrote(g, id))
      else (s, g)
    case Restore(id, older) =>
      if g.phase.Reconciling? && Holds(s, c) && id in s.rows && s.rows[id].busy && s.rows[id].conn == Some(c) then
        (s.(rows := s.rows[id := s.rows[id].(online := false, conn := older)]),
         if older == Some(c) then g else g.(wrote := g.wrote - {id}))
      else (s, g)
    case Reconciled => if g.phase.Reconciling? then (s, g.(phase := Committing(0))) else (s, g)
    case Commit(references) => DoCommit(s, c, g, references)
    case CommitThrows(landed) =>
      if !g.phase.Committing? then (s, g)
      else if landed && Holds(s, c) && VersionMatches(s, VersionOf(g.base)) then
        (s.(inventory := Some(Built(g))), g.(phase := Listing))
      else (s, g.(phase := Listing))
    case Reread =>
      if !g.phase.Rereading? then (s, g)
      else (s, g.(base := s.inventory, fromCache := false,
                  phase := if g.plan == [] then Committing(g.phase.attempt) else Republishing(g.phase.attempt, 0)))
    case GiveUp =>
      (s, if g.phase.Won? || g.phase.Reconciling? || g.phase.Committing? || g.phase.Rereading? then g.(phase := Listing) else g)
    case _ => (s, g)
  }

  /** Steps of `rollbackDurableRegistration`; the rows of the map are visited in any order. */
  function Backward(s: Store, c: string, g: Agent, m: Move): (Store, Agent) {
    match m
    case List =>
      if g.phase.Listing? then (s, g.(phase := Offlining(g.published + OwnRows(s, c)), unstamped := g.erased, reopened := {})) else (s, g)
    case Offline(id) =>
      if g.phase.Offlining? && id in g.phase.todo then
        (if CanSetOnline(s, c, id) then SetOnline(s, id, false) else s, g.(phase := Offlining(g.phase.todo - {id})))
      else (s, g)
    case Unlock =>
      if g.phase == Offlining({}) then (s, g.(phase := Releasing))
      else if g.phase.Releasing? then (Release(s, c), g.(phase := Failed))
      else (s, g)
    case _ => (s, g.(phase := Broken))
  }

  predicate IsBackward(m: Move) { m.List? || m.Offline? || m.Unlock? || m.Crash? }

  function MoveAgent(s: Store, c: string, g: Agent, m: Move): (Store, Agent) {
    if IsBackward(m) then Backward(s, c, g, m) else Forward(s, c, g, m)
  }

  // The world: one host, all its registrations, and everything else that writes its rows

  datatype World = World(store: Store, agents: map<string, Agent>)

  datatype Action =
    | Arrive(c: string, hostId: string, report: Report, cached: Option<Record>)
    | Step(c: string, move: Move)
    | Disconnect(c: string)
    | Edit(record: Record)
    | Change(id: string, row: Row)
    | Reopen(id: string, row: Row)
    | Create(id: string, row: Row)
    | Delete(id: string)

  /** Other writers stamp a row with the connection that holds the lease, leave its stamp, or erase it. */
  predicate MayStamp(s: Store, id: string, row: Row) {
    id in s.rows && (row.conn.None? || row.conn == s.rows[id].conn || Holds(s, row.conn.value))
  }

  /** Another writer wrote the row: each registration notes a lost or regained stamp, and a row brought online. */
  function NoteWrite(c: string, g: Agent, id: string, row: Row, reopens: bool): Agent {
    g.(erased := if row.conn.None? then g.erased + {id} else if row.conn == Some(c) then g.erased - {id} else g.erased,
       reopened := if reopens then g.reopened + {id} else g.reopened)
  }

  function NoteWrites(agents: map<string, Agent>, id: string, row: Row, reopens: bool): map<string, Agent> {
    map c | c in agents :: NoteWrite(c, agents[c], id, row, reopens)
  }

  function NoteDeleted(agents: map<string, Agent>, id: string): map<string, Agent> {
    map c | c in agents :: agents[c].(wrote := agents[c].wrote - {id})
  }

  function SetRow(s: Store, id: string, row: Row): Store { s.(rows := s.rows[id := row]) }

  function Do(w: World, a: Action): World {
    match a
    case Arrive(c, hostId, report, cached) =>
      if c in w.agents || Holds(w.store, c) then w
      else w.(agents := w.agents[c := Agent(Waiting, hostId, report, cached, [], None, false, {}, {}, {}, {}, {})])
    case Step(c, move) =>
      if c in w.agents then
        var next := MoveAgent(w.store, c, w.agents[c], move);
        World(next.0, w.agents[c := next.1])
      else w
    case Disconnect(c) => w.(store := Release(w.store, c))
    case Edit(record) =>
      if record.version > VersionOf(w.store.inventory) then w.(store := w.store.(inventory := Some(record))) else w
    case Change(id, row) =>
      if MayStamp(w.store, id, row) && (row.online ==> w.store.rows[id].online) then
        World(SetRow(w.store, id, row), NoteWrites(w.agents, id, row, false))
      else w
    case Reopen(id, row) =>
      if MayStamp(w.store, id, row) then World(SetRow(w.store, id, row), NoteWrites(w.agents, id, row, true)) else w
    case Create(id, row) =>
      if id !in w.store.rows then w.(store := SetRow(w.store, id, row)) else w
    case Delete(id) => World(w.store.(rows := w.store.rows - {id}), NoteDeleted(w.agents, id))
  }

  function Run(w: World, acts: seq<Action>): World {
    if acts == [] then w else Do(Run(w, acts[..|acts| - 1]), acts[|acts| - 1])
  }

  // What each registration may rely on

  /** A baseline read from storage is still stored, or the stored version has moved past it. */
  ghost predicate BaseOk(base: Option<Record>, current: Option<Record>) {
    if base.None? then current.None? || current.value.version >= 1
    else current.Some? && current.value.version >= base.value.version
         && (current.value.version == base.value.version ==> current == base)
  }

  ghost predicate Advances(before: Option<Record>, after: Option<Record>) {
    before == after || (after.Some? && after.value.version > VersionOf(before))
  }

  ghost predicate UsesBase(phase: Phase) {
    phase.Based? || phase.Publishing? || phase.Reconciling? || phase.Committing? || phase.Rereading? || phase.Republishing?
  }

  /** A row the rollback could not know of: it was never recorded as published, and its stamp was gone. */
  ghost predicate OutOfSight(g: Agent, id: string) { id !in g.published && id in g.unstamped }

  ghost predicate OfflineBut(s: Store, g: Agent, todo: set<string>) {
    forall id :: id in g.wrote && id in s.rows && id !in todo && id !in g.reopened && !OutOfSight(g, id) ==> !s.rows[id].online
  }

  /** What holds of the rows while the registration is still the lock's connection. */
  ghost predicate RowsOk(s: Store, c: string, g: Agent)
    requires s.lock.Some?
  {
    && (forall id :: id in g.wrote ==> id in s.rows && if id in g.erased then s.rows[id].conn.None? else s.rows[id].conn == Some(c))
    && (g.phase.Offlining? ==> OfflineBut(s, g, g.phase.todo) && forall id :: id in g.wrote && OutOfSight(g, id) ==> id !in g.phase.todo)
    && (g.phase.Releasing? ==> OfflineBut(s, g, {}))
    && (g.phase.Failed? ==> s.lock.value.disconnected && OfflineBut(s, g, {}))
  }

  ghost predicate AgentOk(s: Store, c: string, g: Agent) {
    && (g.phase.Waiting? || g.phase.Lost? ==> !Holds(s, c))
    && (g.phase.Waiting? ==> g.wrote == {})
    && (Holds(s, c) ==> RowsOk(s, c, g))
    && (UsesBase(g.phase) && !g.fromCache ==> BaseOk(g.base, s.inventory))
    && (UsesBase(g.phase) && g.fromCache ==> g.base == g.cached && g.base.Some?)
  }

  ghost predicate Inv(w: World) {
    forall c :: c in w.agents ==> AgentOk(w.store, c, w.agents[c])
  }

  /** A step of registration `c` disturbs no other: it writes only while it holds the lease. */
  ghost predicate Fenced(s: Store, next: Store, c: string) {
    && (next.rows != s.rows || next.inventory != s.inventory ==> Holds(s, c))
    && (next.lock != s.lock ==> Holds(next, c))
    && Advances(s.inventory, next.inventory)
  }

  lemma MoveIsFenced(s: Store, c: string, g: Agent, m: Move)
    ensures Fenced(s, MoveAgent(s, c, g, m).0, c)
  {
    hide Build;
    BuildAdvances(g);
  }

  lemma BuildAdvances(g: Agent)
    ensures Built(g).version == VersionOf(g.base) + 1
  {
  }

  lemma OtherStaysOk(s: Store, next: Store, c: string, d: string, g: Agent)
    requires Fenced(s, next, c) && c != d && AgentOk(s, d, g)
    ensures AgentOk(next, d, g)
  {
    hide RowsOk;
    if Holds(next, d) {
      assert next == s;
    }
  }

  lemma ForwardKeepsOk(s: Store, c: string, g: Agent, m: Move)
    requires AgentOk(s, c, g) && !IsBackward(m)
    ensures var next := Forward(s, c, g, m); AgentOk(next.0, c, next.1)
  {
    hide Built, BaseOk;
    if m.Read? || m.Reread? {
      assert BaseOk(s.inventory, s.inventory) by { ReadIsOk(s.inventory); }
    }
    if m.Put? {
      PutKeepsOk(s, c, g);
    }
  }

  lemma ReadIsOk(inventory: Option<Record>)
    ensures BaseOk(inventory, inventory)
  {
  }

  lemma PutKeepsOk(s: Store, c: string, g: Agent)
    requires AgentOk(s, c, g)
    ensures var next := DoPut(s, c, g); AgentOk(next.0, c, next.1)
  {
    hide BaseOk;
  }

  lemma BackwardKeepsOk(s: Store, c: string, g: Agent, m: Move)
    requires AgentOk(s, c, g) && IsBackward(m)
    ensures var next := Backward(s, c, g, m); AgentOk(next.0, c, next.1)
  {
    hide BaseOk;
  }

  lemma StepKeepsInv(w: World, c: string, m: Move)
    requires Inv(w) && c in w.agents
    ensures Inv(Do(w, Step(c, m)))
  {
    hide AgentOk, MoveAgent, Fenced;
    var s, g := w.store, w.agents[c];
    var next := MoveAgent(s, c, g, m);
    MoveIsFenced(s, c, g, m);
    assert AgentOk(s, c, g);
    assert AgentOk(next.0, c, next.1) by { OwnStaysOk(s, c, g, m); }
    forall d | d in w.agents && d != c
      ensures AgentOk(next.0, d, w.agents[d])
    {
      OtherStaysOk(s, next.0, c, d, w.agents[d]);
    }
  }

  lemma OwnStaysOk(s: Store, c: string, g: Agent, m: Move)
    requires AgentOk(s, c, g)
    ensures AgentOk(MoveAgent(s, c, g, m).0, c, MoveAgent(s, c, g, m).1)
  {
    hide AgentOk, Forward, Backward;
    if IsBackward(m) { BackwardKeepsOk(s, c, g, m); } else { ForwardKeepsOk(s, c, g, m); }
  }

  lemma EditKeepsOk(s: Store, record: Record, c: string, g: Agent)
    requires AgentOk(s, c, g) && record.version > VersionOf(s.inventory)
    ensures AgentOk(s.(inventory := Some(record)), c, g)
  {
  }

  lemma ChangeKeepsOk(s: Store, id: string, row: Row, c: string, g: Agent)
    requires AgentOk(s, c, g) && MayStamp(s, id, row)
    requires row.online ==> s.rows[id].online
    ensures AgentOk(SetRow(s, id, row), c, NoteWrite(c, g, id, row, false))
  {
    hide BaseOk;
  }

  lemma ReopenKeepsOk(s: Store, id: string, row: Row, c: string, g: Agent)
    requires AgentOk(s, c, g) && MayStamp(s, id, row)
    ensures AgentOk(SetRow(s, id, row), c, NoteWrite(c, g, id, row, true))
  {
    hide BaseOk;
  }

  lemma CreateKeepsOk(s: Store, id: string, row: Row, c: string, g: Agent)
    requires AgentOk(s, c, g) && id !in s.rows
    ensures AgentOk(SetRow(s, id, row), c, g)
  {
    hide BaseOk;
  }

  lemma DeleteKeepsOk(s: Store, id: string, c: string, g: Agent)
    requires AgentOk(s, c, g)
    ensures AgentOk(s.(rows := s.rows - {id}), c, g.(wrote := g.wrote - {id}))
  {
    hide BaseOk;
  }

  lemma DisconnectKeepsOk(s: Store, d: string, c: string, g: Agent)
    requires AgentOk(s, c, g)
    ensures AgentOk(Release(s, d), c, g)
  {
    hide BaseOk;
  }

  lemma DoKeepsInv(w: World, a: Action)
    requires Inv(w)
    ensures Inv(Do(w, a))
  {
    match a
    case Step(c, m) => if c in w.agents { StepKeepsInv(w, c, m); }
    case Arrive(_, _, _, _) =>
    case _ => OutsideKeepsInv(w, a);
  }

  lemma OutsideKeepsInv(w: World, a: Action)
    requires Inv(w) && !a.Step? && !a.Arrive?
    ensures Inv(Do(w, a))
  {
    hide AgentOk;
    forall c | c in w.agents
      ensures AgentOk(Do(w, a).store, c, Do(w, a).agents[c])
    {
      OutsideKeepsOk(w, a, c);
    }
  }

  lemma OutsideKeepsOk(w: World, a: Action, c: string)
    requires !a.Step? && !a.Arrive? && c in w.agents && AgentOk(w.store, c, w.agents[c])
    ensures c in Do(w, a).agents && AgentOk(Do(w, a).store, c, Do(w, a).agents[c])
  {
    hide AgentOk;
    var s, g := w.store, w.agents[c];
    match a
    case Disconnect(d) => DisconnectKeepsOk(s, d, c, g);
    case Edit(record) => if record.version > VersionOf(s.inventory) { EditKeepsOk(s, record, c, g); }
    case Change(id, row) =>
      if MayStamp(s, id, row) && (row.online ==> s.rows[id].online) { ChangeKeepsOk(s, id, row, c, g); }
    case Reopen(id, row) => if MayStamp(s, id, row) { ReopenKeepsOk(s, id, row, c, g); }
    case Create(id, row) => if id !in s.rows { CreateKeepsOk(s, id, row, c, g); }
    case Delete(id) => DeleteKeepsOk(s, id, c, g);
  }

  lemma {:induction false} RunKeepsInv(w: World, acts: seq<Action>)
    requires Inv(w)
    ensures Inv(Run(w, acts))
  {
    if acts != [] {
      RunKeepsInv(w, acts[..|acts| - 1]);
      DoKeepsInv(Run(w, acts[..|acts| - 1]), acts[|acts| - 1]);
    }
  }

  // Main results, for every run that starts with any stored state and no registration in flight

  /**
   * A failed registration leaves nothing behind: another connection has replaced it, or the lease is free and no
   * row it published is online, save rows that someone else brought online after its rollback listed them. Of
   * the rows it wrote without recording them, only those can be online whose stamp another writer had erased.
   */
  lemma FailureIsClean(store: Store, acts: seq<Action>, c: string)
    requires var w := Run(World(store, map[]), acts); c in w.agents && w.agents[c].phase.Failed?
    ensures var w := Run(World(store, map[]), acts);
            Holds(w.store, c) ==>
              && w.store.lock.value.disconnected
              && (forall id :: id in w.agents[c].wrote && id in w.store.rows && w.store.rows[id].online ==>
                    id in w.agents[c].reopened || OutOfSight(w.agents[c], id))
              && (forall id :: id in w.agents[c].wrote * w.agents[c].published && id in w.store.rows && w.store.rows[id].online ==>
                    id in w.agents[c].reopened)
  {
    RunKeepsInv(World(store, map[]), acts);
    assert AgentOk(Run(World(store, map[]), acts).store, c, Run(World(store, map[]), acts).agents[c]);
  }

  /** The rollback lists exactly those of the rows it wrote that are not out of sight. */
  lemma ListedUnlessOutOfSight(store: Store, acts: seq<Action>, c: string, id: string)
    requires var w := Run(World(store, map[]), acts); c in w.agents && w.agents[c].phase.Listing? && Holds(w.store, c) && id in w.agents[c].wrote
    ensures var g := Do(Run(World(store, map[]), acts), Step(c, List)).agents[c];
            g.phase.Offlining? && (id in g.phase.todo <==> !OutOfSight(g, id))
  {
    hide Run, Build;
    RunKeepsInv(World(store, map[]), acts);
    var w := Run(World(store, map[]), acts);
    assert AgentOk(w.store, c, w.agents[c]);
  }

  /** In any run, no step of the rollback changes a row it wrote that is out of its sight. */
  lemma OutOfSightIsPassedOver(store: Store, acts: seq<Action>, c: string, m: Move, id: string)
    requires var w := Run(World(store, map[]), acts);
             c in w.agents && w.agents[c].phase.Offlining? && Holds(w.store, c) && id in w.agents[c].wrote && OutOfSight(w.agents[c], id)
    ensures var w := Run(World(store, map[]), acts);
            var next := Do(w, Step(c, m)).store; id in w.store.rows && id in next.rows && next.rows[id] == w.store.rows[id]
  {
    hide Run, Build;
    RunKeepsInv(World(store, map[]), acts);
    var w := Run(World(store, map[]), acts);
    assert AgentOk(w.store, c, w.agents[c]);
  }

  function Steps(c: string, moves: seq<Move>): seq<Action> {
    if moves == [] then [] else Steps(c, moves[..|moves| - 1]) + [Step(c, moves[|moves| - 1])]
  }

  /** How a rollback stands that nobody interferes with. */
  ghost predicate RollingBack(before: World, now: World, c: string)
    requires c in before.agents
  {
    && c in now.agents
    && var g, h := before.agents[c], now.agents[c];
       || h.phase.Broken?
       || (h.phase.Listing? && now.store == before.store && h == g)
       || ((h.phase.Offlining? || h.phase.Releasing? || h.phase.Failed?) && Untouched(before, now, c))
  }

  ghost predicate Untouched(before: World, now: World, c: string)
    requires c in before.agents && c in now.agents
  {
    var g, h := before.agents[c], now.agents[c];
    && h.wrote == g.wrote && h.published == g.published && h.unstamped == g.erased && h.reopened == {}
    && now.store.rows.Keys == before.store.rows.Keys && Holds(now.store, c)
    && forall id :: id in g.wrote && OutOfSight(h, id) ==> id in before.store.rows && now.store.rows[id] == before.store.rows[id]
  }

  lemma RollbackStep(before: World, now: World, c: string, m: Move)
    requires c in before.agents && before.agents[c].phase.Listing? && Holds(before.store, c)
    requires Inv(before) && Inv(now) && RollingBack(before, now, c)
    ensures RollingBack(before, Do(now, Step(c, m)), c)
  {
    hide Build, BaseOk, OfflineBut;
    assert AgentOk(now.store, c, now.agents[c]);
    assert AgentOk(before.store, c, before.agents[c]);
  }

  lemma {:induction false} RollbackSteps(before: World, moves: seq<Move>, c: string)
    requires c in before.agents && before.agents[c].phase.Listing? && Holds(before.store, c) && Inv(before)
    ensures RollingBack(before, Run(before, Steps(c, moves)), c) && Inv(Run(before, Steps(c, moves)))
  {
    hide Do, Inv, RollingBack;
    if moves == [] {
      RollbackBegins(before, c);
    } else {
      var init, m := moves[..|moves| - 1], moves[|moves| - 1];
      RollbackSteps(before, init, c);
      RunSnoc(before, Steps(c, init), Step(c, m));
      RollbackStep(before, Run(before, Steps(c, init)), c, m);
      DoKeepsInv(Run(before, Steps(c, init)), Step(c, m));
    }
  }

  lemma RollbackBegins(w: World, c: string)
    requires c in w.agents && w.agents[c].phase.Listing?
    ensures RollingBack(w, w, c)
  {
  }

  /**
   * The exception is exact. When a rollback that nobody interferes with has ended, the lease is free, and a row
   * the registration wrote is online exactly if it was online before and out of the rollback's sight.
   */
  lemma RollbackLeavesExactly(store: Store, acts: seq<Action>, moves: seq<Move>, c: string, id: string)
    requires var w := Run(World(store, map[]), acts); c in w.agents && w.agents[c].phase.Listing? && Holds(w.store, c) && id in w.agents[c].wrote
    requires var end := Run(Run(World(store, map[]), acts), Steps(c, moves)); c in end.agents && end.agents[c].phase.Failed?
    ensures var w := Run(World(store, map[]), acts);
            var end := Run(w, Steps(c, moves));
            && end.store.lock == Some(Lock(c, true)) && id in end.store.rows && id in w.store.rows
            && (end.store.rows[id].online <==> w.store.rows[id].online && OutOfSight(end.agents[c], id))
            && (OutOfSight(end.agents[c], id) <==> id !in w.agents[c].published && w.store.rows[id].conn.None?)
  {
    hide Run, Build;
    var w := Run(World(store, map[]), acts);
    RunKeepsInv(World(store, map[]), acts);
    RollbackSteps(w, moves, c);
    var end := Run(w, Steps(c, moves));
    assert AgentOk(w.store, c, w.agents[c]);
    assert AgentOk(end.store, c, end.agents[c]);
  }

  /** Worktree rows and the inventory change only under the lease holder's hand. */
  lemma OnlyHolderWrites(w: World, c: string, m: Move)
    ensures var next := Do(w, Step(c, m)).store;
            next.rows != w.store.rows || next.inventory != w.store.inventory ==> Holds(w.store, c)
  {
    hide MoveAgent;
    if c in w.agents {
      MoveIsFenced(w.store, c, w.agents[c], m);
    }
  }

  ghost predicate Replaced(w: World, c: string) {
    c in w.agents && !w.agents[c].phase.Waiting? && !Holds(w.store, c)
  }

  /** Once a connection has lost the lease it never holds it, or writes, again. */
  lemma {:induction false} ReplacedForGood(w: World, acts: seq<Action>, c: string)
    requires Replaced(w, c)
    ensures Replaced(Run(w, acts), c)
  {
    hide Build;
    if acts != [] {
      ReplacedForGood(w, acts[..|acts| - 1], c);
      ReplacedStep(Run(w, acts[..|acts| - 1]), acts[|acts| - 1], c);
    }
  }

  lemma ReplacedStep(w: World, a: Action, c: string)
    requires Replaced(w, c)
    ensures Replaced(Do(w, a), c)
    ensures a.Step? && a.c == c ==> Do(w, a).store == w.store
  {
    hide Built, OwnRows;
    if a.Step? && a.c in w.agents && a.c != c {
      hide MoveAgent;
      MoveIsFenced(w.store, a.c, w.agents[a.c], a.move);
    }
  }

  /**
   * What a registration commits is its report merged into exactly the document it replaces, so every operator
   * setting of that document survives. This needs a baseline read from storage: see `CachedBaseline`.
   */
  lemma CommitBuildsOnReplaced(store: Store, acts: seq<Action>, c: string, m: Move)
    requires var w := Run(World(store, map[]), acts); c in w.agents && !w.agents[c].fromCache
    requires var w := Run(World(store, map[]), acts); Do(w, Step(c, m)).store.inventory != w.store.inventory
    ensures var w := Run(World(store, map[]), acts);
            var g, before, after := w.agents[c], w.store.inventory, Do(w, Step(c, m)).store.inventory;
            && after == Some(Build(g.hostId, g.report, before))
            && (before.Some? && HostUnique(before.value.doc.repositories) ==> KeepsOperatorSettings(before.value.doc, after.value.doc))
  {
    hide Build, HostUnique, KeepsOperatorSettings, Run;
    var w := Run(World(store, map[]), acts);
    RunKeepsInv(World(store, map[]), acts);
    var g, before := w.agents[c], w.store.inventory;
    assert AgentOk(w.store, c, g);
    CommitUsesBase(w.store, c, g, m);
    if before.Some? && HostUnique(before.value.doc.repositories) {
      RegistrationKeepsSettings(g.hostId, g.report, before.value);
    }
  }

  lemma CommitUsesBase(s: Store, c: string, g: Agent, m: Move)
    requires AgentOk(s, c, g) && !g.fromCache && MoveAgent(s, c, g, m).0.inventory != s.inventory
    ensures MoveAgent(s, c, g, m).0.inventory == Some(Build(g.hostId, g.report, s.inventory))
  {
    hide Build, RowsOk;
  }

  /** A replaced registration can run on for as long as it likes without writing anything. */
  lemma ReplacedNeverWrites(w: World, acts: seq<Action>, c: string, m: Move)
    requires Replaced(w, c)
    ensures Do(Run(w, acts), Step(c, m)).store == Run(w, acts).store
  {
    ReplacedForGood(w, acts, c);
    ReplacedStep(Run(w, acts), Step(c, m), c);
  }

  // A run without interference

  lemma RunSnoc(w: World, acts: seq<Action>, a: Action)
    ensures Run(w, acts + [a]) == Do(Run(w, acts), a)
  {
    assert (acts + [a])[..|acts|] == acts;
  }

  lemma {:induction false} RunConcat(w: World, xs: seq<Action>, ys: seq<Action>)
    ensures Run(w, xs + ys) == Run(Run(w, xs), ys)
  {
    hide Do;
    if ys == [] {
      assert xs + ys == xs;
    } else {
      var n := |ys| - 1;
      RunConcat(w, xs, ys[..n]);
      assert xs + ys == xs + ys[..n] + [ys[n]];
      RunSnoc(w, xs + ys[..n], ys[n]);
    }
  }

  function PublishRows(rows: map<string, Row>, c: string, plan: seq<Planned>): map<string, Row>
    decreases plan
  {
    if plan == [] then rows
    else PublishRows(rows[plan[0].id := Row(plan[0].online, false, Some(c))], c, plan[1..])
  }

  ghost predicate NoneBusy(rows: map<string, Row>, plan: seq<Planned>) {
    forall i :: 0 <= i < |plan| && plan[i].id in rows ==> !rows[plan[i].id].busy
  }

  function Puts(c: string, n: nat): seq<Action> {
    if n == 0 then [] else [Step(c, Move.Put)] + Puts(c, n - 1)
  }

  lemma RunFirst(w: World, a: Action, acts: seq<Action>)
    ensures Run(w, [a] + acts) == Run(Do(w, a), acts)
  {
    RunSnoc(w, [], a);
    assert [] + [a] == [a];
    RunConcat(w, [a], acts);
  }

  lemma {:induction false} PutsPublish(w: World, c: string, k: nat)
    requires c in w.agents && w.agents[c].phase == Publishing(k) && k < |w.agents[c].plan|
    requires Holds(w.store, c) && NoneBusy(w.store.rows, w.agents[c].plan)
    ensures var g, end := w.agents[c], Run(w, Puts(c, |w.agents[c].plan| - k));
            && end.store == w.store.(rows := PublishRows(w.store.rows, c, g.plan[k..]))
            && c in end.agents && end.agents[c].phase == Reconciling
            && end.agents[c].base == g.base && end.agents[c].report == g.report && end.agents[c].hostId == g.hostId
    decreases |w.agents[c].plan| - k
  {
    hide Do;
    var g := w.agents[c];
    var next := Do(w, Step(c, Move.Put));
    PutStep(w, c, k);
    RunFirst(w, Step(c, Move.Put), Puts(c, |g.plan| - k - 1));
    assert g.plan[k..][1..] == g.plan[k + 1..];
    if k + 1 < |g.plan| {
      PutsPublish(next, c, k + 1);
    } else {
      assert g.plan[k + 1..] == [];
    }
  }

  lemma PutStep(w: World, c: string, k: nat)
    requires c in w.agents && w.agents[c].phase == Publishing(k) && k < |w.agents[c].plan|
    requires Holds(w.store, c) && NoneBusy(w.store.rows, w.agents[c].plan)
    ensures var g, next := w.agents[c], Do(w, Step(c, Move.Put));
            && next.store == w.store.(rows := w.store.rows[g.plan[k].id := Row(g.plan[k].online, false, Some(c))])
            && c in next.agents && next.agents[c].phase == (if k + 1 < |g.plan| then Publishing(k + 1) else Reconciling)
            && next.agents[c].base == g.base && next.agents[c].report == g.report && next.agents[c].hostId == g.hostId
            && next.agents[c].plan == g.plan && NoneBusy(next.store.rows, g.plan)
  {
  }

  lemma {:induction false} PublishedRow(rows: map<string, Row>, c: string, plan: seq<Planned>, id: string)
    ensures id in PublishRows(rows, c, plan) <==> id in rows || exists i :: 0 <= i < |plan| && plan[i].id == id
    ensures (forall i :: 0 <= i < |plan| ==> plan[i].id != id) ==>
              (id in PublishRows(rows, c, plan) <==> id in rows) && (id in rows ==> PublishRows(rows, c, plan)[id] == rows[id])
    ensures (exists i :: 0 <= i < |plan| && plan[i].id == id) ==>
              exists i :: 0 <= i < |plan| && plan[i].id == id && PublishRows(rows, c, plan)[id] == Row(plan[i].online, false, Some(c))
    decreases plan
  {
    if plan != [] {
      var tail := plan[1..];
      PublishedRow(rows[plan[0].id := Row(plan[0].online, false, Some(c))], c, tail, id);
      assert forall i :: 0 < i < |plan| ==> plan[i] == tail[i - 1];
      if exists i :: 0 <= i < |tail| && tail[i].id == id {
        var i :| 0 <= i < |tail| && tail[i].id == id
                 && PublishRows(rows, c, plan)[id] == Row(tail[i].online, false, Some(c));
        assert plan[i + 1] == tail[i];
      }
    }
  }

  function Undisturbed(c: string, replace: bool, existing: Option<string>, plan: seq<Planned>): seq<Action> {
    [Step(c, TryRegister(replace, existing)), Step(c, Read), Step(c, Plan(plan))]
    + (Puts(c, |plan|) + [Step(c, Reconciled), Step(c, Commit(true))])
  }

  /** Left alone, a registration that wins the lease publishes all its rows and commits its merged document. */
  lemma UndisturbedRegistrationCommits(w: World, c: string, replace: bool, existing: Option<string>, plan: seq<Planned>)
    requires c in w.agents && w.agents[c].phase.Waiting? && (w.agents[c].cached.None? || w.store.inventory.Some?)
    requires w.store.lock.None? || (if replace && existing.Some? then w.store.lock.value.conn == existing.value else w.store.lock.value.disconnected)
    requires NoneBusy(w.store.rows, plan)
    ensures var g, end := w.agents[c], Run(w, Undisturbed(c, replace, existing, plan));
            && c in end.agents && end.agents[c].phase.Committed?
            && end.store.lock == Some(Lock(c, false))
            && end.store.inventory == Some(Build(g.hostId, g.report, w.store.inventory))
            && end.store.rows == PublishRows(w.store.rows, c, plan)
  {
    hide Build, Do, Run, PublishRows;
    var first := [Step(c, TryRegister(replace, existing)), Step(c, Read), Step(c, Plan(plan))];
    var planned := Run(w, first);
    Planning(w, c, replace, existing, plan);
    RunConcat(w, first, Puts(c, |plan|) + [Step(c, Reconciled), Step(c, Commit(true))]);
    RunConcat(planned, Puts(c, |plan|), [Step(c, Reconciled), Step(c, Commit(true))]);
    if plan != [] {
      assert plan[0..] == plan;
      PutsPublish(planned, c, 0);
    }
    var ready := Run(planned, Puts(c, |plan|));
    if plan == [] {
      NoPuts(planned, c);
    }
    Finishing(ready, c);
  }

  lemma NoPuts(w: World, c: string)
    ensures Run(w, Puts(c, 0)) == w && PublishRows(w.store.rows, c, []) == w.store.rows
  {
  }

  lemma Planning(w: World, c: string, replace: bool, existing: Option<string>, plan: seq<Planned>)
    requires c in w.agents && w.agents[c].phase.Waiting? && (w.agents[c].cached.None? || w.store.inventory.Some?)
    requires CanRegister(w.store, replace, existing)
    ensures var g := w.agents[c];
            Run(w, [Step(c, TryRegister(replace, existing)), Step(c, Read), Step(c, Plan(plan))]) ==
            World(w.store.(lock := Some(Lock(c, false))),
                  w.agents[c := g.(base := w.store.inventory, fromCache := false, plan := plan,
                                   phase := if plan == [] then Reconciling else Publishing(0))])
  {
    hide Build, Run;
    var a, b, d := Step(c, TryRegister(replace, existing)), Step(c, Read), Step(c, Plan(plan));
    var g := w.agents[c];
    var won := World(w.store.(lock := Some(Lock(c, false))), w.agents[c := g.(phase := Won)]);
    assert Do(w, a) == won;
    var read := World(won.store, w.agents[c := g.(base := w.store.inventory, fromCache := false, phase := Based)]);
    assert Do(won, b) == read;
    RunFirst(w, a, [b, d]);
    assert [a] + [b, d] == [a, b, d];
    RunFirst(won, b, [d]);
    assert [b] + [d] == [b, d];
    RunFirst(read, d, []);
    assert [d] + [] == [d];
    RunNothing(Do(read, d));
  }

  lemma Finishing(w: World, c: string)
    requires c in w.agents && w.agents[c].phase.Reconciling? && Holds(w.store, c)
    requires VersionMatches(w.store, VersionOf(w.agents[c].base))
    ensures var end := Run(w, [Step(c, Reconciled), Step(c, Commit(true))]);
            && c in end.agents && end.agents[c].phase.Committed?
            && end.store == w.store.(inventory := Some(Built(w.agents[c])))
  {
    hide Build;
    var a, b := Step(c, Reconciled), Step(c, Commit(true));
    RunFirst(w, a, [b]);
    assert [a] + [b] == [a, b];
    RunFirst(Do(w, a), b, []);
    assert [b] + [] == [b];
  }

  /**
   * A document known only from the process cache is no safe baseline. If the stored one is missing when it is
   * read and an edit then stores one with the cached version, the commit replaces that edit.
   */
  lemma CachedBaseline(c: string, hostId: string, report: Report, cached: Record, edit: Record)
    requires cached.version == edit.version >= 1 && cached.doc.setupScript != edit.doc.setupScript
    ensures exists acts: seq<Action> ::
              var w := Run(World(Store(None, map[], None), map[]), acts);
              && w.store.inventory == Some(edit) && c in w.agents && w.agents[c].fromCache
              && var after := Do(w, Step(c, Commit(true))).store.inventory;
                 && after == Some(Build(hostId, report, Some(cached)))
                 && after != Some(Build(hostId, report, Some(edit)))
  {
    hide Do, MergeRepositories, Unregistered, NextDaemon;
    var acts := CachedSetup(c, hostId, report, cached, edit);
    var w := Run(World(Store(None, map[], None), map[]), acts);
    CachedCommit(w, c);
  }

  lemma CachedSetup(c: string, hostId: string, report: Report, cached: Record, edit: Record) returns (acts: seq<Action>)
    requires edit.version >= 1
    ensures Run(World(Store(None, map[], None), map[]), acts) ==
            World(Store(Some(Lock(c, false)), map[], Some(edit)),
                  map[c := Agent(Committing(0), hostId, report, Some(cached), [], Some(cached), true, {}, {}, {}, {}, {})])
  {
    hide Build, Run;
    var w0 := World(Store(None, map[], None), map[]);
    var a0, a1, a2 := Arrive(c, hostId, report, Some(cached)), Step(c, TryRegister(false, None)), Step(c, Read);
    var a3, a4, a5 := Step(c, Plan([])), Edit(edit), Step(c, Reconciled);
    var g := Agent(Waiting, hostId, report, Some(cached), [], None, false, {}, {}, {}, {}, {});
    assert Do(w0, a0) == World(w0.store, map[c := g]);
    var w1 := Do(w0, a0);
    var w2 := World(Store(Some(Lock(c, false)), map[], None), map[c := g.(phase := Won)]);
    assert Do(w1, a1) == w2;
    var based := g.(base := Some(cached), fromCache := true);
    var w3 := World(w2.store, map[c := based.(phase := Based)]);
    assert Do(w2, a2) == w3;
    var w4 := World(w2.store, map[c := based.(phase := Reconciling)]);
    assert Do(w3, a3) == w4;
    var w5 := World(Store(Some(Lock(c, false)), map[], Some(edit)), w4.agents);
    assert Do(w4, a4) == w5;
    acts := [a0] + ([a1] + ([a2] + ([a3] + ([a4] + ([a5] + [])))));
    RunFirst(w0, a0, [a1] + ([a2] + ([a3] + ([a4] + ([a5] + [])))));
    RunFirst(w1, a1, [a2] + ([a3] + ([a4] + ([a5] + []))));
    RunFirst(w2, a2, [a3] + ([a4] + ([a5] + [])));
    RunFirst(w3, a3, [a4] + ([a5] + []));
    RunFirst(w4, a4, [a5] + []);
    RunFirst(w5, a5, []);
    RunNothing(Do(w5, a5));
  }

  lemma RunNothing(w: World)
    ensures Run(w, []) == w
  {
  }

  lemma CachedCommit(w: World, c: string)
    requires c in w.agents && w.agents[c].phase == Committing(0) && Holds(w.store, c)
    requires VersionMatches(w.store, VersionOf(w.agents[c].base))
    ensures Do(w, Step(c, Commit(true))).store.inventory == Some(Built(w.agents[c]))
  {
    hide Build;
  }

  /**
   * The exception is real. Reconciliation stamps a row, an inventory write erases the stamp, and the registration
   * then fails: its rollback finds nothing to take offline and frees the lease with the row online.
   */
  lemma ErasedStampStaysOnline(c: string, hostId: string, report: Report)
    ensures exists acts: seq<Action> ::
              var w := Run(World(Store(None, map["w" := Row(false, true, None)], None), map[]), acts);
              && c in w.agents && w.agents[c].phase.Failed? && "w" in w.agents[c].wrote && w.agents[c].reopened == {}
              && w.store.lock == Some(Lock(c, true)) && "w" in w.store.rows && w.store.rows["w"].online
  {
    hide Run, Do;
    var w0 := World(Store(None, map["w" := Row(false, true, None)], None), map[]);
    var w1, first := Reconciled0(w0, c, hostId, report);
    var w2, second := StampErased(w1, c, w1.agents[c]);
    var w3, third := BlindRollback(w2, c, w2.agents[c]);
    RunConcat(w0, first, second);
    RunConcat(w0, first + second, third);
  }

  lemma StampErased(w: World, c: string, g: Agent) returns (end: World, acts: seq<Action>)
    requires w.agents == map[c := g] && g.phase.Reconciling? && g.wrote == {} && g.erased == {} && Holds(w.store, c)
    requires w.store.rows == map["w" := Row(false, true, None)]
    ensures Run(w, acts) == end
    ensures end == World(w.store.(rows := map["w" := Row(true, false, None)]), map[c := g.(wrote := {"w"}, erased := {"w"})])
  {
    hide Run, Build;
    var stamp, erase := Step(c, Stamp("w", Row(true, false, None))), Change("w", Row(true, false, None));
    var wrote := g.(wrote := {"w"});
    assert Wrote(g, "w") == wrote;
    var stamped := World(w.store.(rows := map["w" := Row(true, false, Some(c))]), map[c := wrote]);
    assert Do(w, stamp) == stamped;
    end := World(w.store.(rows := map["w" := Row(true, false, None)]), map[c := wrote.(erased := {"w"})]);
    assert NoteWrite(c, wrote, "w", Row(true, false, None), false) == wrote.(erased := {"w"});
    assert Do(stamped, erase) == end;
    acts := [stamp] + ([erase] + []);
    RunFirst(w, stamp, [erase] + []);
    RunFirst(stamped, erase, []);
    RunNothing(end);
  }

  lemma BlindRollback(w: World, c: string, g: Agent) returns (end: World, acts: seq<Action>)
    requires w.agents == map[c := g] && g.phase.Reconciling? && g.published == {} && Holds(w.store, c) && OwnRows(w.store, c) == {}
    ensures Run(w, acts) == end
    ensures end == World(w.store.(lock := Some(Lock(c, true))), map[c := g.(phase := Failed, unstamped := g.erased, reopened := {})])
  {
    hide Run, Build;
    var s := w.store;
    var b1, b2, b3 := Step(c, GiveUp), Step(c, List), Step(c, Unlock);
    var listing := World(s, map[c := g.(phase := Listing)]);
    assert Do(w, b1) == listing;
    var listed := g.(phase := Offlining({}), unstamped := g.erased, reopened := {});
    assert g.published + OwnRows(s, c) == {};
    assert Do(listing, b2) == World(s, map[c := listed]);
    var releasing := World(s, map[c := listed.(phase := Releasing)]);
    assert Do(World(s, map[c := listed]), b3) == releasing;
    end := World(s.(lock := Some(Lock(c, true))), map[c := listed.(phase := Failed)]);
    assert Do(releasing, b3) == end;
    acts := [b1] + ([b2] + ([b3] + ([b3] + [])));
    RunFirst(w, b1, [b2] + ([b3] + ([b3] + [])));
    RunFirst(listing, b2, [b3] + ([b3] + []));
    RunFirst(World(s, map[c := listed]), b3, [b3] + []);
    RunFirst(releasing, b3, []);
    RunNothing(end);
  }

  /** A registration with nothing to publish, ready to reconcile. */
  lemma Reconciled0(w0: World, c: string, hostId: string, report: Report) returns (w: World, acts: seq<Action>)
    requires w0.agents == map[] && w0.store.lock.None? && w0.store.inventory.None?
    ensures Run(w0, acts) == w
    ensures w == World(w0.store.(lock := Some(Lock(c, false))),
                       map[c := Agent(Reconciling, hostId, report, None, [], None, false, {}, {}, {}, {}, {})])
  {
    hide Run, Build;
    var arrive := Arrive(c, hostId, report, None);
    var g := Agent(Waiting, hostId, report, None, [], None, false, {}, {}, {}, {}, {});
    var w1 := World(w0.store, map[c := g]);
    assert Do(w0, arrive) == w1;
    var planning := [Step(c, TryRegister(false, None)), Step(c, Read), Step(c, Plan([]))];
    Planning(w1, c, false, None, []);
    RunFirst(w0, arrive, planning);
    acts := [arrive] + planning;
    w := World(w0.store.(lock := Some(Lock(c, false))), map[c := g.(phase := Reconciling)]);
    assert Run(w1, planning) == w;
  }

  /**
   * What a commit from a cached baseline does, in every run: nothing versioned was stored, or the stored document
   * has the version of the cached one. The settings of a replaced document survive exactly if the cache agrees on them.
   */
  lemma CachedCommitExact(store: Store, acts: seq<Action>, c: string, m: Move)
    requires var w := Run(World(store, map[]), acts); c in w.agents && w.agents[c].fromCache
    requires var w := Run(World(store, map[]), acts); Do(w, Step(c, m)).store.inventory != w.store.inventory
    ensures var w := Run(World(store, map[]), acts);
            var g, before, after := w.agents[c], w.store.inventory, Do(w, Step(c, m)).store.inventory;
            && g.cached.Some? && after == Some(Build(g.hostId, g.report, g.cached))
            && (if before.None? then g.cached.value.version == 0 else before.value.version == g.cached.value.version)
            && (before.Some? && HostUnique(g.cached.value.doc.repositories) ==>
                  (KeepsOperatorSettings(before.value.doc, after.value.doc) <==>
                   CacheAgrees(before.value.doc, g.cached.value.doc, g.report)))
  {
    hide Build, HostUnique, KeepsOperatorSettings, CacheAgrees, Run;
    var w := Run(World(store, map[]), acts);
    RunKeepsInv(World(store, map[]), acts);
    var g, before := w.agents[c], w.store.inventory;
    assert AgentOk(w.store, c, g);
    CommitUsesCache(w.store, c, g, m);
    if before.Some? && HostUnique(g.cached.value.doc.repositories) {
      SettingsKeptIffCacheAgrees(g.hostId, g.report, g.cached.value, before.value.doc);
    }
  }

  lemma CommitUsesCache(s: Store, c: string, g: Agent, m: Move)
    requires AgentOk(s, c, g) && g.fromCache && MoveAgent(s, c, g, m).0.inventory != s.inventory
    ensures g.cached.Some? && MoveAgent(s, c, g, m).0.inventory == Some(Build(g.hostId, g.report, g.cached))
    ensures VersionMatches(s, g.cached.value.version)
  {
    hide Build, RowsOk;
  }

  // Who may take the lease

  /** A registration that names `owner` as the connection to replace. */
  predicate Replaces(a: Action, owner: string) {
    a.Step? && a.move.TryRegister? && a.move.replace && a.move.existing == Some(owner)
  }

  /** While a connection holds a live lease, nothing another registration does touches the store, unless it replaces it by name. */
  lemma LiveLeaseExcludes(w: World, owner: string, c: string, m: Move)
    requires w.store.lock == Some(Lock(owner, false)) && c != owner && !Replaces(Step(c, m), owner)
    ensures Do(w, Step(c, m)).store == w.store
    ensures m.TryRegister? && c in w.agents && w.agents[c].phase.Waiting? ==> Do(w, Step(c, m)).agents[c].phase.Lost?
  {
    hide Build;
  }

  lemma LiveLeaseStep(w: World, owner: string, a: Action)
    requires w.store.lock == Some(Lock(owner, false))
    requires !Replaces(a, owner) && a != Disconnect(owner) && a != Step(owner, Unlock)
    ensures Do(w, a).store.lock == w.store.lock
    ensures a.Step? && a.c != owner ==> Do(w, a).store == w.store
  {
    hide Build;
  }

  /**
   * Over any run in which a live owner neither unlocks nor disconnects and nobody names it as the one to replace, it
   * keeps the lease and no step of another registration changes the lock, a row or the inventory.
   */
  lemma {:induction false} LiveLeaseKept(w: World, acts: seq<Action>, owner: string)
    requires w.store.lock == Some(Lock(owner, false))
    requires forall i :: 0 <= i < |acts| ==> !Replaces(acts[i], owner) && acts[i] != Disconnect(owner) && acts[i] != Step(owner, Unlock)
    ensures Run(w, acts).store.lock == Some(Lock(owner, false))
    ensures forall i :: 0 <= i < |acts| && acts[i].Step? && acts[i].c != owner ==> Run(w, acts[..i + 1]).store == Run(w, acts[..i]).store
  {
    hide Do;
    if acts != [] {
      var n := |acts| - 1;
      var init := acts[..n];
      LiveLeaseKept(w, init, owner);
      LiveLeaseStep(Run(w, init), owner, acts[n]);
      assert acts[..n + 1] == acts;
      forall i | 0 <= i < n && acts[i].Step? && acts[i].c != owner
        ensures Run(w, acts[..i + 1]).store == Run(w, acts[..i]).store
      {
        assert init[..i + 1] == acts[..i + 1] && init[..i] == acts[..i] && init[i] == acts[i];
      }
    }
  }

  /** A lease that was never taken, or has been released, goes to the next registration that names no predecessor. */
  lemma FreeLeaseIsTaken(w: World, c: string, replace: bool)
    requires c in w.agents && w.agents[c].phase.Waiting? && (w.store.lock.None? || w.store.lock.value.disconnected)
    ensures var next := Do(w, Step(c, TryRegister(replace, None)));
            && next.store == w.store.(lock := Some(Lock(c, false)))
            && next.agents[c].phase.Won?
  {
  }

  lemma ReleasedLeaseIsTaken(w: World, owner: string, c: string, replace: bool)
    requires c in w.agents && w.agents[c].phase.Waiting? && Holds(w.store, owner)
    ensures var next := Do(Do(w, Disconnect(owner)), Step(c, TryRegister(replace, None)));
            next.store == w.store.(lock := Some(Lock(c, false))) && next.agents[c].phase.Won?
  {
    var freed := Do(w, Disconnect(owner));
    assert freed.store.lock == Some(Lock(owner, true));
    FreeLeaseIsTaken(freed, c, replace);
  }

  /** A replacement wins exactly against the connection it names, live or not, or an empty lock. */
  lemma ReplacementNamesOwner(w: World, c: string, named: string)
    requires c in w.agents && w.agents[c].phase.Waiting?
    ensures var next := Do(w, Step(c, TryRegister(true, Some(named))));
            if w.store.lock.None? || w.store.lock.value.conn == named
            then next.store == w.store.(lock := Some(Lock(c, false))) && next.agents[c].phase.Won?
            else next.store == w.store && next.agents[c].phase.Lost?
  {
  }

  // The storage calls as the store performs them

  datatype PutResult = PutOk | LeaseLost | VersionMoved | ReferenceLost

  class HostStore {
    var lock: Option<Lock>
    var rows: map<string, Row>
    var inventory: Option<Record>

    function Model(): Store
      reads this
    {
      Store(lock, rows, inventory)
    }

    method TryRegisterHost(c: string, replace: bool, existing: Option<string>) returns (won: bool)
      modifies this
      ensures won == CanRegister(old(Model()), replace, existing)
      ensures old(lock).None? ==> won
      ensures old(lock).Some? && replace && existing.Some? ==> (won <==> old(lock).value.conn == existing.value)
      ensures old(lock).Some? && !(replace && existing.Some?) ==> (won <==> old(lock).value.disconnected)
      ensures if won then lock == Some(Lock(c, false)) && rows == old(rows) && inventory == old(inventory) else Model() == old(Model())
      ensures Model() == if won then Acquire(old(Model()), c) else old(Model())
    {
      won := lock.None? || (if replace && existing.Some? then lock.value.conn == existing.value else lock.value.disconnected);
      if won {
        lock := Some(Lock(c, false));
      }
    }

    method PutWorktreeFenced(c: string, id: string, online: bool) returns (ok: bool)
      modifies this
      ensures ok == CanPut(old(Model()), c, id)
      ensures Model() == if ok then PutRow(old(Model()), c, id, online) else old(Model())
    {
      ok := lock.Some? && lock.value.conn == c && (id !in rows || !rows[id].busy);
      if ok {
        rows := rows[id := Row(online, false, Some(c))];
      }
    }

    method SetWorktreeOnlineFenced(c: string, id: string, online: bool) returns (ok: bool)
      modifies this
      ensures ok == CanSetOnline(old(Model()), c, id)
      ensures Model() == if ok then SetOnline(old(Model()), id, online) else old(Model())
    {
      ok := lock.Some? && lock.value.conn == c && id in rows && (rows[id].conn.None? || rows[id].conn.value == c);
      if ok {
        rows := rows[id := rows[id].(online := online)];
      }
    }

    method ReleaseHostConnection(c: string) returns (released: bool)
      modifies this
      ensures released == Holds(old(Model()), c) && Model() == Release(old(Model()), c)
    {
      released := lock.Some? && lock.value.conn == c;
      if released {
        lock := Some(Lock(c, true));
      }
    }

    /** A failed version condition is reported first, then the lease, then the references. */
    method PutHostInventoryFenced(record: Record, c: string, expected: nat, references: bool) returns (r: PutResult)
      modifies this
      ensures r.PutOk? <==> Holds(old(Model()), c) && VersionMatches(old(Model()), expected) && references
      ensures r.VersionMoved? <==> !VersionMatches(old(Model()), expected)
      ensures r.LeaseLost? ==> !Holds(old(Model()), c)
      ensures r.ReferenceLost? ==> Holds(old(Model()), c) && !references
      ensures Model() == if r.PutOk? then old(Model()).(inventory := Some(record)) else old(Model())
    {
      var matches := if inventory.None? then expected == 0 else inventory.value.version == expected;
      var held := lock.Some? && lock.value.conn == c;
      if !matches {
        r := VersionMoved;
      } else if !held {
        r := LeaseLost;
      } else if !references {
        r := ReferenceLost;
      } else {
        inventory := Some(record);
        r := PutOk;
      }
    }

    /** `rollbackDurableRegistration` with nothing in between its calls. */
    method Rollback(c: string, published: set<string>)
      modifies this
      ensures inventory == old(inventory) && rows.Keys == old(rows.Keys)
      ensures lock == Release(old(Model()), c).lock
      ensures forall id :: id in rows ==>
                var hit := CanSetOnline(old(Model()), c, id) && (id in published || old(rows)[id].conn == Some(c));
                rows[id] == if hit then old(rows)[id].(online := false) else old(rows)[id]
    {
      var owned := published + set id | id in rows && rows[id].conn == Some(c);
      var todo := owned;
      while todo != {}
        invariant todo <= owned && lock == old(lock) && inventory == old(inventory) && rows.Keys == old(rows.Keys)
        invariant forall id :: id in rows ==>
                    rows[id] == if CanSetOnline(old(Model()), c, id) && id in owned - todo then old(rows)[id].(online := false) else old(rows)[id]
        decreases todo
      {
        assert (forall x :: x !in todo) ==> todo == {};
        var id :| id in todo;
        var ok := SetWorktreeOnlineFenced(c, id, false);
        todo := todo - {id};
      }
      var released := ReleaseHostConnection(c);
    }

    method PublishWorktrees(c: string, plan: seq<Planned>) returns (ok: bool, published: set<string>)
      modifies this
      ensures lock == old(lock) && inventory == old(inventory)
      ensures Holds(Model(), c) ==> (ok <==> NoneBusy(old(rows), plan))
      ensures ok ==> NoneBusy(rows, plan) && AllPublished(rows, c, plan)
      ensures forall id :: id in rows && !(id in old(rows) && rows[id] == old(rows)[id]) ==> rows[id].conn == Some(c)
    {
      published := {};
      ok := true;
      var i := 0;
      while i < |plan|
        invariant 0 <= i <= |plan| && ok && lock == old(lock) && inventory == old(inventory)
        invariant forall k :: 0 <= k < i ==> plan[k].id in rows && rows[plan[k].id].conn == Some(c)
        invariant forall id :: id in old(rows) ==> id in rows
        invariant forall id :: id in rows && !(id in old(rows) && rows[id] == old(rows)[id]) ==> rows[id].conn == Some(c) && !rows[id].busy
        invariant forall id :: id in old(rows) && rows[id] != old(rows)[id] ==> !old(rows)[id].busy
        invariant forall k :: 0 <= k < i && plan[k].id in old(rows) ==> !old(rows)[plan[k].id].busy
        invariant forall k :: 0 <= k < i ==> !rows[plan[k].id].busy
      {
        ok := PutWorktreeFenced(c, plan[i].id, plan[i].online);
        if !ok {
          return;
        }
        published := published + {plan[i].id};
        i := i + 1;
      }
    }

    /**
     * The commit loop of a registration that has published its rows. `edits(n)` lands between the read and the n-th
     * attempt; a version conflict is retried twice. `replaced` is the document that the commit replaces.
     */
    method CommitWithRetries(c: string, hostId: string, report: Report, plan: seq<Planned>, edits: nat -> Option<Record>)
      returns (ok: bool, attempts: nat, ghost replaced: Option<Record>)
      requires FreshEdits(inventory, edits)
      requires lock == Some(Lock(c, false)) && NoneBusy(rows, plan) && AllPublished(rows, c, plan)
      modifies this
      ensures lock == old(lock) && attempts <= 2 && AllPublished(rows, c, plan)
      ensures ok ==> inventory == Some(Build(hostId, report, replaced)) && edits(attempts).None?
                     && replaced == LatestEdit(old(inventory), edits, attempts)
      ensures !ok ==> edits(0).Some? && edits(1).Some? && edits(2).Some?
    {
      attempts := 0;
      replaced := None;
      var base := inventory;
      while true
        invariant attempts <= 2 && lock == old(lock) && NoneBusy(rows, plan) && AllPublished(rows, c, plan)
        invariant base == inventory == LatestBefore(old(inventory), edits, attempts)
        invariant forall k: nat :: k < attempts ==> edits(k).Some?
        decreases 3 - attempts
      {
        hide Build, PublishRows;
        if edits(attempts).Some? {
          inventory := edits(attempts);
        }
        replaced := inventory;
        EditMovesVersion(old(inventory), edits, attempts);
        var put := PutHostInventoryFenced(Build(hostId, report, base), c, VersionOf(base), true);
        if put.PutOk? {
          return true, attempts, replaced;
        }
        if !put.VersionMoved? || attempts >= 2 {
          return false, attempts, replaced;
        }
        base := inventory;
        var again: set<string>;
        ok, again := PublishWorktrees(c, plan);
        if !ok {
          return;
        }
        attempts := attempts + 1;
      }
    }

    /**
     * The durable registration with operator edits as the only interference. It commits its report merged into the
     * document it replaces; it gives up, and leaves nothing of its own online, only when all three attempts met an edit.
     */
    method RegisterHostDurable(c: string, replace: bool, existing: Option<string>, hostId: string, report: Report, plan: seq<Planned>,
                               edits: nat -> Option<Record>) returns (ok: bool, attempts: nat, ghost replaced: Option<Record>)
      requires FreshEdits(inventory, edits)
      modifies this
      ensures !CanRegister(old(Model()), replace, existing) ==> !ok && Model() == old(Model())
      ensures old(lock).Some? && !old(lock).value.disconnected && !(replace && existing == Some(old(lock).value.conn)) ==>
                !ok && Model() == old(Model())
      ensures (old(lock).None? || (old(lock).value.disconnected && existing.None?)) && NoneBusy(old(rows), plan) && edits(0).None? ==> ok
      ensures ok ==> lock == Some(Lock(c, false)) && attempts <= 2 && inventory == Some(Build(hostId, report, replaced))
      ensures ok ==> AllPublished(rows, c, plan)
      ensures ok ==> replaced == LatestEdit(old(inventory), edits, attempts) && edits(attempts).None?
      ensures CanRegister(old(Model()), replace, existing) && !ok ==>
                && lock == Some(Lock(c, true))
                && (forall id :: id in rows && rows[id].conn == Some(c) ==> !rows[id].online)
                && (NoneBusy(old(rows), plan) ==> edits(0).Some? && edits(1).Some? && edits(2).Some?)
    {
      hide Build, PublishRows, FreshEdits, LatestEdit;
      attempts := 0;
      replaced := None;
      ok := TryRegisterHost(c, replace, existing);
      if !ok {
        return;
      }
      var published: set<string>;
      ok, published := PublishWorktrees(c, plan);
      if ok {
        ok, attempts, replaced := CommitWithRetries(c, hostId, report, plan, edits);
      }
      if !ok {
        Rollback(c, published);
      }
    }
  }

  /** Every planned row carries the connection. */
  ghost predicate AllPublished(rows: map<string, Row>, c: string, plan: seq<Planned>) {
    forall i :: 0 <= i < |plan| ==> plan[i].id in rows && rows[plan[i].id].conn == Some(c)
  }

  /** Edits have versions of their own, positive and unlike the stored one. */
  ghost predicate FreshEdits(stored: Option<Record>, edits: nat -> Option<Record>) {
    && (stored.Some? ==> forall n: nat :: edits(n).Some? ==> edits(n).value.version != stored.value.version)
    && (forall m: nat, n: nat :: m < n && edits(m).Some? && edits(n).Some? ==> edits(m).value.version != edits(n).value.version)
    && (forall n: nat :: edits(n).Some? ==> edits(n).value.version > 0)
  }

  /** The stored document when attempt `n` begins: the latest edit before it, or what was there. */
  ghost function LatestBefore(stored: Option<Record>, edits: nat -> Option<Record>, n: nat): Option<Record> {
    if n == 0 then stored else LatestEdit(stored, edits, n - 1)
  }

  ghost function LatestEdit(stored: Option<Record>, edits: nat -> Option<Record>, n: nat): Option<Record>
    decreases n
  {
    if edits(n).Some? then edits(n) else if n == 0 then stored else LatestEdit(stored, edits, n - 1)
  }

  lemma EditMovesVersion(stored: Option<Record>, edits: nat -> Option<Record>, n: nat)
    requires FreshEdits(stored, edits)
    requires forall k: nat :: k < n ==> edits(k).Some?
    ensures edits(n).Some? ==> edits(n).value.version != VersionOf(LatestBefore(stored, edits, n))
    ensures edits(n).None? ==> LatestEdit(stored, edits, n) == LatestBefore(stored, edits, n)
  {
  }
}
