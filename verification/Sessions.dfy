/**
 * Sessions, worktrees and pending acknowledgements of the in-memory control plane
 * (services/api/src/control-plane-assign.ts, control-plane-cancel-local.ts, control-plane-agents.ts).
 */
module Sessions {
  import opened Options

  datatype Status = Queued | Running | Completed | Failed | Cancelled | TimedOut

  predicate Terminal(s: Status) { s.Completed? || s.Failed? || s.Cancelled? || s.TimedOut? }

  datatype Session = Session(status: Status, worktree: Option<string>, host: Option<string>, attempt: Option<string>, acked: bool)

  datatype Worktree = Worktree(host: string, busy: bool, session: Option<string>, online: bool)

  datatype Pending = Pending(worktree: string, attempt: string, assignedAt: int)

  datatype State = State(
    sessions: map<string, Session>,
    worktrees: map<string, Worktree>,
    pending: map<string, Pending>,
    draining: set<string>,
    disconnected: set<string>)

  // Worktree ownership

  predicate Claimable(st: State, w: string) { w in st.worktrees && !st.worktrees[w].busy && st.worktrees[w].online }

  function Claim(st: State, w: string, s: string): State
    requires w in st.worktrees
  {
    st.(worktrees := st.worktrees[w := st.worktrees[w].(busy := true, session := Some(s))])
  }

  /** A worktree released while its host drains or is away goes offline. */
  function Release(st: State, w: string): State {
    if w !in st.worktrees then st
    else
      var wt := st.worktrees[w];
      var away := wt.host in st.draining || wt.host in st.disconnected;
      st.(worktrees := st.worktrees[w := Worktree(wt.host, false, None, wt.online && !away)])
  }

  // Assignment

  /** A placement candidate: is its account ready, is an account lease free, and the attempt id it would get. */
  datatype Candidate = Candidate(worktree: string, ready: bool, leased: bool, attempt: string)

  datatype Plan = Expire | Leave | Assign(candidates: seq<Candidate>)

  datatype Turn = Turn(session: string, plan: Plan)

  function Bind(st: State, s: string, c: Candidate, now: int): State
    requires s in st.sessions && c.worktree in st.worktrees
  {
    Claim(st, c.worktree, s).(
    sessions := st.sessions[s := Session(Running, Some(c.worktree), Some(st.worktrees[c.worktree].host), Some(c.attempt), false)],
    pending := st.pending[s := Pending(c.worktree, c.attempt, now)])
  }

  /** Try the candidates in order; a claim whose account lease is refused is given back. */
  function Place(st: State, s: string, candidates: seq<Candidate>, now: int): State
    requires s in st.sessions
    decreases candidates
  {
    if candidates == [] then st
    else
      var c := candidates[0];
      if !c.ready || !Claimable(st, c.worktree) then Place(st, s, candidates[1..], now)
      else if !c.leased then Place(Release(Claim(st, c.worktree, s), c.worktree), s, candidates[1..], now)
      else Bind(st, s, c, now)
  }

  function AssignOne(st: State, turn: Turn, now: int): State {
    if turn.session !in st.sessions || !st.sessions[turn.session].status.Queued? then st
    else
      match turn.plan
      case Leave => st
      case Expire => st.(sessions := st.sessions[turn.session := st.sessions[turn.session].(status := Failed)])
      case Assign(candidates) => Place(st, turn.session, candidates, now)
  }

  function AssignAll(st: State, turns: seq<Turn>, now: int): State {
    if turns == [] then st else AssignOne(AssignAll(st, turns[..|turns| - 1], now), turns[|turns| - 1], now)
  }

  // Acknowledgement and its deadline

  predicate Matches(s: Session, worktree: Option<string>, attempt: string) {
    s.worktree == worktree && s.attempt == Some(attempt)
  }

  function Acknowledge(st: State, s: string, worktree: Option<string>, attempt: string): State {
    if s in st.sessions && st.sessions[s].status.Running? && Matches(st.sessions[s], worktree, attempt) && !st.sessions[s].acked then
      st.(sessions := st.sessions[s := st.sessions[s].(acked := true)], pending := st.pending - {s})
    else st
  }

  function Requeued(s: Session): Session { s.(status := Queued, worktree := None, host := None) }

  /** The session still is in the attempt this deadline was armed for. The status is not looked at. */
  predicate Armed(st: State, s: string)
    requires s in st.pending
  {
    && s in st.sessions && !st.sessions[s].acked
    && st.sessions[s].worktree == Some(st.pending[s].worktree) && st.sessions[s].attempt == Some(st.pending[s].attempt)
  }

  predicate Due(st: State, s: string, now: int, deadline: int) {
    s in st.pending && now - st.pending[s].assignedAt >= deadline
  }

  function SweepOne(st: State, s: string, now: int, deadline: int): (next: State)
    ensures next.sessions.Keys == st.sessions.Keys
  {
    if !Due(st, s, now, deadline) then st
    else if !Armed(st, s) then st.(pending := st.pending - {s})
    else
      Release(st, st.pending[s].worktree).(
      sessions := st.sessions[s := Requeued(st.sessions[s])],
      pending := st.pending - {s})
  }

  /** The sweep visits the pending map in its insertion order. */
  function Sweep(st: State, order: seq<string>, now: int, deadline: int): (next: State)
    ensures next.sessions.Keys == st.sessions.Keys
  {
    if order == [] then st else SweepOne(Sweep(st, order[..|order| - 1], now, deadline), order[|order| - 1], now, deadline)
  }

  // Cancelling, provisional rollback, reports, timeouts and disconnects

  function Cancel(st: State, s: string): State {
    if s !in st.sessions || Terminal(st.sessions[s].status) then st
    else
      var session := st.sessions[s];
      var next := st.(pending := st.pending - {s});
      if session.status.Running? && session.host.Some? then next.(sessions := st.sessions[s := session.(status := Cancelled)])
      else
        (if session.worktree.Some? then Release(next, session.worktree.value) else next).(
        sessions := st.sessions[s := session.(status := Cancelled, worktree := None, host := None)])
  }

  predicate Provisional(s: Session) { (s.status.Running? || s.status.Cancelled?) && !s.acked }

  /** `requeueUnackedWorktree`: a cancelled session gives its worktree back but stays cancelled. */
  function RollBack(st: State, w: string): State {
    if w !in st.worktrees || st.worktrees[w].session.None? then st
    else
      var s := st.worktrees[w].session.value;
      if s !in st.sessions || !Provisional(st.sessions[s]) then st
      else
        var session := st.sessions[s];
        Release(st, w).(
        sessions := st.sessions[s := session.(status := if session.status.Running? then Queued else session.status, worktree := None, host := None)],
        pending := st.pending - {s})
  }

  /** What a host reports: an end, an end that is retried, or progress. */
  datatype Report = Ended(status: Status) | Retried | Progress(status: Status)

  function ReleaseOwn(st: State, s: string, w: Option<string>): State {
    if w.Some? && w.value in st.worktrees && st.worktrees[w.value].session == Some(s) then Release(st, w.value) else st
  }

  function ApplyReport(st: State, s: string, worktree: Option<string>, attempt: string, report: Report): State {
    if s !in st.sessions || !Matches(st.sessions[s], worktree, attempt) then st
    else
      var session := st.sessions[s];
      match report
      case Progress(status) =>
        if session.status.Running? then st.(sessions := st.sessions[s := session.(status := status)]) else st
      case Ended(status) =>
        if session.status.Running? then
          (if session.worktree.Some? then Release(st, session.worktree.value) else st).(
          sessions := st.sessions[s := session.(status := status, worktree := None)], pending := st.pending - {s})
        else ReleaseOwn(st, s, session.worktree).(sessions := st.sessions[s := session.(worktree := None)])
      case Retried =>
        if session.status.Running? then
          (if session.worktree.Some? then Release(st, session.worktree.value) else st).(
          sessions := st.sessions[s := Requeued(session)], pending := st.pending - {s})
        else ReleaseOwn(st, s, session.worktree).(sessions := st.sessions[s := session.(worktree := None)])
  }

  function TimeOut(st: State, s: string): State {
    if s in st.sessions && st.sessions[s].status.Running? && st.sessions[s].acked then
      ReleaseOwn(st, s, st.sessions[s].worktree).(
      sessions := st.sessions[s := st.sessions[s].(status := TimedOut, worktree := None, host := None)],
      pending := st.pending - {s})
    else st
  }

  function OfflineOne(st: State, host: string, w: string): State {
    if w !in st.worktrees || st.worktrees[w].host != host then st
    else
      var off := st.(worktrees := st.worktrees[w := st.worktrees[w].(online := false)]);
      var s := st.worktrees[w].session;
      if s.Some? && s.value in st.sessions && st.sessions[s.value].status.Running? && !st.sessions[s.value].acked then
        Release(off, w).(
        sessions := st.sessions[s.value := Requeued(st.sessions[s.value])],
        pending := st.pending - {s.value})
      else off
  }

  function OfflineAll(st: State, host: string, order: seq<string>): State {
    if order == [] then st else OfflineOne(OfflineAll(st, host, order[..|order| - 1]), host, order[|order| - 1])
  }

  function Disconnect(st: State, host: string, order: seq<string>): State {
    OfflineAll(st.(draining := st.draining - {host}, disconnected := st.disconnected + {host}), host, order)
  }

  // Runs

  datatype Action =
    | Submit(session: string)
    | AssignQueued(turns: seq<Turn>, at: int)
    | Ack(session: string, worktree: Option<string>, attempt: string)
    | SweepAcks(order: seq<string>, at: int, deadline: int)
    | CancelSession(session: string)
    | RollBackWorktree(id: string)
    | HostReport(session: string, worktree: Option<string>, attempt: string, report: Report)
    | TimeOutSession(session: string)
    | DisconnectHost(host: string, order: seq<string>)
    | ConnectHost(host: string)
    | DrainHost(host: string, drain: bool)
    | Advertise(id: string, host: string, online: bool)
    | Withdraw(id: string)

  function Step(st: State, a: Action): State {
    match a
    case Submit(s) =>
      if s in st.sessions then st else st.(sessions := st.sessions[s := Session(Queued, None, None, None, false)])
    case AssignQueued(turns, at) => AssignAll(st, turns, at)
    case Ack(s, worktree, attempt) => Acknowledge(st, s, worktree, attempt)
    case SweepAcks(order, at, deadline) => Sweep(st, order, at, deadline)
    case CancelSession(s) => Cancel(st, s)
    case RollBackWorktree(w) => RollBack(st, w)
    case HostReport(s, worktree, attempt, report) => ApplyReport(st, s, worktree, attempt, report)
    case TimeOutSession(s) => TimeOut(st, s)
    case DisconnectHost(host, order) => Disconnect(st, host, order)
    case ConnectHost(host) => st.(disconnected := st.disconnected - {host})
    case DrainHost(host, drain) => st.(draining := if drain then st.draining + {host} else st.draining - {host})
    case Advertise(w, host, online) =>
      if w in st.worktrees && st.worktrees[w].busy then st
      else st.(worktrees := st.worktrees[w := Worktree(host, false, None, online)])
    case Withdraw(w) =>
      if w in st.worktrees && !st.worktrees[w].busy then st.(worktrees := st.worktrees - {w}) else st
  }

  function Run(st: State, acts: seq<Action>): State {
    if acts == [] then st else Step(Run(st, acts[..|acts| - 1]), acts[|acts| - 1])
  }

  /** Terminal reports carry a terminal status; a progress report does not put the session back in the queue. */
  predicate Sensible(a: Action) {
    a.HostReport? ==> match a.report case Ended(status) => Terminal(status) case Retried => true case Progress(status) => status.Running?
  }

  ghost predicate SensibleRun(acts: seq<Action>) {
    forall i :: 0 <= i < |acts| ==> Sensible(acts[i])
  }

  // The invariant

  /** A session holds a worktree exactly when the worktree is busy with that session. */
  ghost predicate Linked(st: State) {
    && (forall w :: w in st.worktrees ==> (st.worktrees[w].busy <==> st.worktrees[w].session.Some?))
    && (forall s :: s in st.sessions && st.sessions[s].worktree.Some? ==>
          st.sessions[s].worktree.value in st.worktrees && st.worktrees[st.sessions[s].worktree.value].session == Some(s))
    && (forall w :: w in st.worktrees && st.worktrees[w].session.Some? ==>
          st.worktrees[w].session.value in st.sessions && st.sessions[st.worktrees[w].session.value].worktree == Some(w))
  }

  ghost predicate SessionOk(s: Session) {
    && (s.status.Running? ==> s.worktree.Some? && s.host.Some? && s.attempt.Some?)
    && (s.worktree.Some? ==> s.status.Running? || s.status.Cancelled?)
  }

  ghost predicate PendingOk(st: State, s: string)
    requires s in st.pending
  {
    Armed(st, s) && st.sessions[s].status.Running?
  }

  ghost predicate Inv(st: State) {
    && Linked(st)
    && (forall s :: s in st.sessions ==> SessionOk(st.sessions[s]))
    && (forall s :: s in st.pending ==> PendingOk(st, s))
  }

  /** Terminal sessions keep their status from one state to the next. */
  ghost predicate KeepsTerminal(st: State, next: State) {
    forall s :: s in st.sessions && Terminal(st.sessions[s].status) ==>
      s in next.sessions && next.sessions[s].status == st.sessions[s].status
  }

  /** Session `s` lets go of `w`: the shape shared by every release. */
  lemma LetGo(st: State, s: string, w: string, after: Session)
    requires Inv(st) && s in st.sessions && st.sessions[s].worktree == Some(w)
    requires after.worktree.None? && SessionOk(after)
    ensures Inv(Release(st, w).(sessions := st.sessions[s := after], pending := st.pending - {s}))
  {
    var next := Release(st, w).(sessions := st.sessions[s := after], pending := st.pending - {s});
    forall t | t in next.sessions && next.sessions[t].worktree.Some?
      ensures next.sessions[t].worktree.value in next.worktrees && next.worktrees[next.sessions[t].worktree.value].session == Some(t)
    {
      assert t != s;
    }
    forall t | t in next.pending
      ensures PendingOk(next, t)
    {
      assert PendingOk(st, t);
    }
  }

  lemma ClaimGivenBack(st: State, s: string, w: string)
    requires Inv(st) && Claimable(st, w)
    ensures Inv(Release(Claim(st, w, s), w))
    ensures KeepsTerminal(st, Release(Claim(st, w, s), w))
  {
    var next := Release(Claim(st, w, s), w);
    assert next.sessions == st.sessions && next.pending == st.pending;
    forall t | t in next.pending
      ensures PendingOk(next, t)
    {
      assert PendingOk(st, t);
    }
  }

  lemma BindKeepsInv(st: State, s: string, c: Candidate, now: int)
    requires Inv(st) && s in st.sessions && st.sessions[s].status.Queued? && Claimable(st, c.worktree)
    ensures Inv(Bind(st, s, c, now))
  {
    var next := Bind(st, s, c, now);
    assert st.sessions[s].worktree.None?;
    forall t | t in next.pending
      ensures PendingOk(next, t)
    {
      if t != s { assert PendingOk(st, t); }
    }
  }

  lemma {:induction false} PlaceKeepsInv(st: State, s: string, candidates: seq<Candidate>, now: int)
    requires Inv(st) && s in st.sessions && st.sessions[s].status.Queued?
    ensures Inv(Place(st, s, candidates, now)) && KeepsTerminal(st, Place(st, s, candidates, now))
    decreases candidates
  {
    hide Inv;
    if candidates != [] {
      var c := candidates[0];
      if !c.ready || !Claimable(st, c.worktree) {
        PlaceKeepsInv(st, s, candidates[1..], now);
      } else if !c.leased {
        ClaimGivenBack(st, s, c.worktree);
        PlaceKeepsInv(Release(Claim(st, c.worktree, s), c.worktree), s, candidates[1..], now);
      } else {
        BindKeepsInv(st, s, c, now);
      }
    }
  }

  lemma AssignOneKeepsInv(st: State, turn: Turn, now: int)
    requires Inv(st)
    ensures Inv(AssignOne(st, turn, now)) && KeepsTerminal(st, AssignOne(st, turn, now))
  {
    hide Place;
    if turn.session in st.sessions && st.sessions[turn.session].status.Queued? {
      match turn.plan
      case Leave =>
      case Expire => ExpireKeepsInv(st, turn.session);
      case Assign(candidates) => PlaceKeepsInv(st, turn.session, candidates, now);
    }
  }

  lemma ExpireKeepsInv(st: State, s: string)
    requires Inv(st) && s in st.sessions && st.sessions[s].status.Queued?
    ensures Inv(st.(sessions := st.sessions[s := st.sessions[s].(status := Failed)]))
  {
    var next := st.(sessions := st.sessions[s := st.sessions[s].(status := Failed)]);
    forall t | t in next.pending
      ensures PendingOk(next, t)
    {
      assert PendingOk(st, t);
    }
  }

  lemma {:induction false} AssignAllKeepsInv(st: State, turns: seq<Turn>, now: int)
    requires Inv(st)
    ensures Inv(AssignAll(st, turns, now)) && KeepsTerminal(st, AssignAll(st, turns, now))
  {
    hide Inv, AssignOne;
    if turns != [] {
      AssignAllKeepsInv(st, turns[..|turns| - 1], now);
      AssignOneKeepsInv(AssignAll(st, turns[..|turns| - 1], now), turns[|turns| - 1], now);
    }
  }

  lemma SweepOneKeepsInv(st: State, s: string, now: int, deadline: int)
    requires Inv(st)
    ensures Inv(SweepOne(st, s, now, deadline)) && KeepsTerminal(st, SweepOne(st, s, now, deadline))
  {
    if Due(st, s, now, deadline) {
      assert PendingOk(st, s);
      LetGo(st, s, st.pending[s].worktree, Requeued(st.sessions[s]));
    }
  }

  lemma {:induction false} SweepKeepsInv(st: State, order: seq<string>, now: int, deadline: int)
    requires Inv(st)
    ensures Inv(Sweep(st, order, now, deadline)) && KeepsTerminal(st, Sweep(st, order, now, deadline))
  {
    hide Inv, SweepOne;
    if order != [] {
      SweepKeepsInv(st, order[..|order| - 1], now, deadline);
      SweepOneKeepsInv(Sweep(st, order[..|order| - 1], now, deadline), order[|order| - 1], now, deadline);
    }
  }

  /** A change of one session's fields that keeps its worktree, and of nothing else. */
  lemma TouchKeepsInv(st: State, s: string, after: Session)
    requires Inv(st) && s in st.sessions && SessionOk(after) && after.worktree == st.sessions[s].worktree
    ensures Inv(st.(sessions := st.sessions[s := after], pending := st.pending - {s}))
  {
    var next := st.(sessions := st.sessions[s := after], pending := st.pending - {s});
    forall t | t in next.pending
      ensures PendingOk(next, t)
    {
      assert PendingOk(st, t);
    }
  }

  lemma AcknowledgeKeepsInv(st: State, s: string, worktree: Option<string>, attempt: string)
    requires Inv(st)
    ensures Inv(Acknowledge(st, s, worktree, attempt)) && KeepsTerminal(st, Acknowledge(st, s, worktree, attempt))
  {
    if Acknowledge(st, s, worktree, attempt) != st {
      TouchKeepsInv(st, s, st.sessions[s].(acked := true));
    }
  }

  lemma CancelKeepsInv(st: State, s: string)
    requires Inv(st)
    ensures Inv(Cancel(st, s)) && KeepsTerminal(st, Cancel(st, s))
  {
    if s in st.sessions && !Terminal(st.sessions[s].status) {
      var session := st.sessions[s];
      assert SessionOk(session);
      TouchKeepsInv(st, s, session.(status := Cancelled));
      TouchKeepsInv(st, s, session.(status := Cancelled, host := None));
    }
  }

  lemma RollBackKeepsInv(st: State, w: string)
    requires Inv(st)
    ensures Inv(RollBack(st, w)) && KeepsTerminal(st, RollBack(st, w))
  {
    if w in st.worktrees && st.worktrees[w].session.Some? {
      var s := st.worktrees[w].session.value;
      var session := st.sessions[s];
      LetGo(st, s, w, session.(status := if session.status.Running? then Queued else session.status, worktree := None, host := None));
    }
  }

  /** A session without a pending acknowledgement loses nothing when its entry is removed. */
  lemma NotPending(st: State, s: string)
    requires Inv(st) && s in st.sessions && !st.sessions[s].status.Running?
    ensures s !in st.pending
  {
    assert forall t :: t in st.pending ==> PendingOk(st, t);
  }

  lemma LateReportKeepsInv(st: State, s: string)
    requires Inv(st) && s in st.sessions && !st.sessions[s].status.Running?
    ensures Inv(ReleaseOwn(st, s, st.sessions[s].worktree).(sessions := st.sessions[s := st.sessions[s].(worktree := None)]))
  {
    var session := st.sessions[s];
    NotPending(st, s);
    assert st.pending - {s} == st.pending;
    assert SessionOk(session);
    if session.worktree.Some? {
      LetGo(st, s, session.worktree.value, session.(worktree := None));
    } else {
      TouchKeepsInv(st, s, session);
    }
  }

  lemma ReportKeepsInv(st: State, s: string, worktree: Option<string>, attempt: string, report: Report)
    requires Inv(st) && Sensible(HostReport(s, worktree, attempt, report))
    ensures var next := ApplyReport(st, s, worktree, attempt, report); Inv(next) && KeepsTerminal(st, next)
  {
    hide Release, Linked;
    if s in st.sessions && Matches(st.sessions[s], worktree, attempt) {
      var session := st.sessions[s];
      assert SessionOk(session);
      if !session.status.Running? {
        LateReportKeepsInv(st, s);
      } else if report.Progress? {
        assert st.sessions[s := session.(status := report.status)] == st.sessions;
      } else {
        LetGo(st, s, session.worktree.value, if report.Ended? then session.(status := report.status, worktree := None) else Requeued(session));
      }
    }
  }

  lemma TimeOutKeepsInv(st: State, s: string)
    requires Inv(st)
    ensures Inv(TimeOut(st, s)) && KeepsTerminal(st, TimeOut(st, s))
  {
    if s in st.sessions && st.sessions[s].status.Running? {
      assert SessionOk(st.sessions[s]);
      LetGo(st, s, st.sessions[s].worktree.value, st.sessions[s].(status := TimedOut, worktree := None, host := None));
    }
  }

  lemma SetOfflineKeepsInv(st: State, w: string)
    requires Inv(st) && w in st.worktrees
    ensures Inv(st.(worktrees := st.worktrees[w := st.worktrees[w].(online := false)]))
  {
    var next := st.(worktrees := st.worktrees[w := st.worktrees[w].(online := false)]);
    forall t | t in next.pending
      ensures PendingOk(next, t)
    {
      assert PendingOk(st, t);
    }
  }

  lemma OfflineOneKeepsInv(st: State, host: string, w: string)
    requires Inv(st)
    ensures Inv(OfflineOne(st, host, w)) && KeepsTerminal(st, OfflineOne(st, host, w))
  {
    hide Release;
    if w in st.worktrees && st.worktrees[w].host == host {
      SetOfflineKeepsInv(st, w);
      var off := st.(worktrees := st.worktrees[w := st.worktrees[w].(online := false)]);
      var s := st.worktrees[w].session;
      if s.Some? {
        LetGo(off, s.value, w, Requeued(off.sessions[s.value]));
      }
    }
  }

  lemma {:induction false} OfflineAllKeepsInv(st: State, host: string, order: seq<string>)
    requires Inv(st)
    ensures Inv(OfflineAll(st, host, order)) && KeepsTerminal(st, OfflineAll(st, host, order))
  {
    hide Inv, OfflineOne;
    if order != [] {
      OfflineAllKeepsInv(st, host, order[..|order| - 1]);
      OfflineOneKeepsInv(OfflineAll(st, host, order[..|order| - 1]), host, order[|order| - 1]);
    }
  }

  lemma FlagsKeepInv(st: State, draining: set<string>, disconnected: set<string>)
    requires Inv(st)
    ensures Inv(st.(draining := draining, disconnected := disconnected))
  {
    forall t | t in st.pending
      ensures PendingOk(st.(draining := draining, disconnected := disconnected), t)
    {
      assert PendingOk(st, t);
    }
  }

  lemma SubmitKeepsInv(st: State, s: string)
    requires Inv(st) && s !in st.sessions
    ensures Inv(st.(sessions := st.sessions[s := Session(Queued, None, None, None, false)]))
  {
    var next := st.(sessions := st.sessions[s := Session(Queued, None, None, None, false)]);
    forall t | t in next.pending
      ensures PendingOk(next, t)
    {
      assert PendingOk(st, t);
    }
  }

  /** An idle worktree may be replaced by any idle one, or go. */
  lemma WorktreesKeepInv(st: State, w: string, worktrees: map<string, Worktree>)
    requires Inv(st) && (w in st.worktrees ==> !st.worktrees[w].busy)
    requires forall v :: v != w ==> (v in worktrees <==> v in st.worktrees)
    requires forall v :: v != w && v in worktrees ==> worktrees[v] == st.worktrees[v]
    requires w in worktrees ==> !worktrees[w].busy && worktrees[w].session.None?
    ensures Inv(st.(worktrees := worktrees))
  {
    var next := st.(worktrees := worktrees);
    forall t | t in next.pending
      ensures PendingOk(next, t)
    {
      assert PendingOk(st, t);
    }
  }

  lemma InventoryKeepsInv(st: State, a: Action)
    requires Inv(st) && (a.Submit? || a.Advertise? || a.Withdraw?)
    ensures Inv(Step(st, a)) && KeepsTerminal(st, Step(st, a))
  {
    hide Inv, Sweep, AssignAll, OfflineAll, Cancel, RollBack, ApplyReport, TimeOut, Acknowledge;
    match a
    case Submit(s) =>
      if s !in st.sessions { SubmitKeepsInv(st, s); }
    case Advertise(w, host, online) =>
      if !(w in st.worktrees && st.worktrees[w].busy) { WorktreesKeepInv(st, w, st.worktrees[w := Worktree(host, false, None, online)]); }
    case Withdraw(w) =>
      if w in st.worktrees && !st.worktrees[w].busy { WorktreesKeepInv(st, w, st.worktrees - {w}); }
  }

  lemma StepKeepsInv(st: State, a: Action)
    requires Inv(st) && Sensible(a)
    ensures Inv(Step(st, a)) && KeepsTerminal(st, Step(st, a))
  {
    hide Inv, Sweep, AssignAll, OfflineAll, Cancel, RollBack, ApplyReport, TimeOut, Acknowledge;
    match a
    case AssignQueued(turns, at) => AssignAllKeepsInv(st, turns, at);
    case Ack(s, worktree, attempt) => AcknowledgeKeepsInv(st, s, worktree, attempt);
    case SweepAcks(order, at, deadline) => SweepKeepsInv(st, order, at, deadline);
    case CancelSession(s) => CancelKeepsInv(st, s);
    case RollBackWorktree(w) => RollBackKeepsInv(st, w);
    case HostReport(s, worktree, attempt, report) => ReportKeepsInv(st, s, worktree, attempt, report);
    case TimeOutSession(s) => TimeOutKeepsInv(st, s);
    case DisconnectHost(host, order) =>
      FlagsKeepInv(st, st.draining - {host}, st.disconnected + {host});
      OfflineAllKeepsInv(st.(draining := st.draining - {host}, disconnected := st.disconnected + {host}), host, order);
    case ConnectHost(host) => FlagsKeepInv(st, st.draining, st.disconnected - {host});
    case DrainHost(host, drain) =>
      FlagsKeepInv(st, if drain then st.draining + {host} else st.draining - {host}, st.disconnected);
    case _ => InventoryKeepsInv(st, a);
  }

  lemma {:induction false} RunKeepsInv(st: State, acts: seq<Action>)
    requires Inv(st) && SensibleRun(acts)
    ensures Inv(Run(st, acts)) && KeepsTerminal(st, Run(st, acts))
  {
    hide Inv, Step;
    if acts != [] {
      RunKeepsInv(st, acts[..|acts| - 1]);
      StepKeepsInv(Run(st, acts[..|acts| - 1]), acts[|acts| - 1]);
    }
  }

  // Main results

  const EMPTY := State(map[], map[], map[], {}, {})

  /** In every run: a session holds a worktree exactly when the worktree is busy with it, and none is shared. */
  lemma OwnershipAgrees(acts: seq<Action>, s: string, w: string)
    requires SensibleRun(acts)
    ensures var st := Run(EMPTY, acts);
            && (s in st.sessions && st.sessions[s].worktree == Some(w) <==>
                w in st.worktrees && st.worktrees[w].busy && st.worktrees[w].session == Some(s))
            && forall t :: s in st.sessions && t in st.sessions && t != s && st.sessions[s].worktree.Some? ==>
                 st.sessions[t].worktree != st.sessions[s].worktree
  {
    RunKeepsInv(EMPTY, acts);
  }

  /** Once a session has ended, no continuation of the run requeues it or changes how it ended. */
  lemma TerminalIsFinal(acts: seq<Action>, more: seq<Action>, s: string)
    requires SensibleRun(acts) && SensibleRun(more)
    requires s in Run(EMPTY, acts).sessions && Terminal(Run(EMPTY, acts).sessions[s].status)
    ensures s in Run(Run(EMPTY, acts), more).sessions
    ensures Run(Run(EMPTY, acts), more).sessions[s].status == Run(EMPTY, acts).sessions[s].status
  {
    RunKeepsInv(EMPTY, acts);
    RunKeepsInv(Run(EMPTY, acts), more);
  }

  /** What one sweep does to a session: it is requeued exactly when its own armed attempt ran out of time. */
  lemma {:induction false} SweepExact(st: State, order: seq<string>, now: int, deadline: int, s: string)
    requires Inv(st)
    ensures var next := Sweep(st, order, now, deadline);
            && next.sessions.Keys == st.sessions.Keys
            && (s in st.sessions ==>
                  next.sessions[s] == if s in order && Due(st, s, now, deadline) then Requeued(st.sessions[s]) else st.sessions[s])
            && (s in next.pending <==> s in st.pending && !(s in order && Due(st, s, now, deadline)))
            && (s in next.pending ==> next.pending[s] == st.pending[s])
  {
    hide Inv, Release, Armed;
    if order != [] {
      var init, t := order[..|order| - 1], order[|order| - 1];
      var mid := Sweep(st, init, now, deadline);
      SweepExact(st, init, now, deadline, s);
      SweepKeepsInv(st, init, now, deadline);
      SweepOneExact(mid, t, now, deadline);
      assert s in order <==> s in init || s == t by {
        assert order == init + [t];
      }
    }
  }

  lemma SweepOneExact(st: State, t: string, now: int, deadline: int)
    requires Inv(st)
    ensures var next := SweepOne(st, t, now, deadline);
            && next.sessions == (if Due(st, t, now, deadline) then
                                   (if t in st.sessions then st.sessions[t := Requeued(st.sessions[t])] else st.sessions)
                                 else st.sessions)
            && next.pending == (if Due(st, t, now, deadline) then st.pending - {t} else st.pending)
            && next.sessions.Keys == st.sessions.Keys
  {
    hide Release;
    if Due(st, t, now, deadline) {
      assert PendingOk(st, t);
    }
  }

  /** The deadline only ever fires for the attempt it was armed with: running, unacknowledged, on its worktree. */
  lemma SweptWasArmed(acts: seq<Action>, order: seq<string>, now: int, deadline: int, s: string)
    requires SensibleRun(acts) && s in Run(EMPTY, acts).sessions
    requires var st := Run(EMPTY, acts); Sweep(st, order, now, deadline).sessions[s] != st.sessions[s]
    ensures var st := Run(EMPTY, acts);
            && s in st.pending && now - st.pending[s].assignedAt >= deadline
            && st.sessions[s].status.Running? && !st.sessions[s].acked
            && st.sessions[s].attempt == Some(st.pending[s].attempt) && st.sessions[s].worktree == Some(st.pending[s].worktree)
            && Sweep(st, order, now, deadline).sessions[s].status.Queued?
  {
    hide Run;
    var st := Run(EMPTY, acts);
    RunKeepsInv(EMPTY, acts);
    SweepExact(st, order, now, deadline, s);
    assert PendingOk(st, s);
  }

  ghost predicate Usable(st: State, c: Candidate) { c.ready && c.leased && Claimable(st, c.worktree) }

  /** A queued session with a usable candidate runs on the first one; the plan names no worktree twice. */
  lemma {:induction false} FirstUsableWins(st: State, s: string, candidates: seq<Candidate>, k: nat, now: int)
    requires Inv(st) && s in st.sessions && k < |candidates| && Usable(st, candidates[k])
    requires forall i :: 0 <= i < k ==> !Usable(st, candidates[i]) && candidates[i].worktree != candidates[k].worktree
    requires forall i, j :: 0 <= i < j < |candidates| ==> candidates[i].worktree != candidates[j].worktree
    ensures var next, c := Place(st, s, candidates, now), candidates[k];
            && s in next.sessions
            && next.sessions[s] == Session(Running, Some(c.worktree), Some(st.worktrees[c.worktree].host), Some(c.attempt), false)
            && c.worktree in next.worktrees && next.worktrees[c.worktree].session == Some(s)
            && s in next.pending && next.pending[s] == Pending(c.worktree, c.attempt, now)
    decreases candidates
  {
    hide Inv;
    var c := candidates[0];
    if k > 0 {
      var rest := candidates[1..];
      assert forall i :: 0 <= i < |rest| ==> rest[i] == candidates[i + 1];
      if c.ready && Claimable(st, c.worktree) {
        var back := Release(Claim(st, c.worktree, s), c.worktree);
        ClaimGivenBack(st, s, c.worktree);
        assert forall i :: 0 <= i < |rest| && rest[i].worktree in st.worktrees ==> back.worktrees[rest[i].worktree] == st.worktrees[rest[i].worktree];
        FirstUsableWins(back, s, rest, k - 1, now);
      } else {
        FirstUsableWins(st, s, rest, k - 1, now);
      }
    }
  }

  /** A progress report keeps the invariant exactly when it does not put the running attempt back in the queue. */
  lemma ProgressKeepsInvIff(st: State, s: string, worktree: Option<string>, attempt: string, status: Status)
    requires Inv(st) && !Terminal(status)
    ensures Inv(ApplyReport(st, s, worktree, attempt, Progress(status))) <==>
            !(status.Queued? && s in st.sessions && Matches(st.sessions[s], worktree, attempt) && st.sessions[s].status.Running?)
  {
    var next := ApplyReport(st, s, worktree, attempt, Progress(status));
    if s in st.sessions && st.sessions[s].status.Running? {
      assert SessionOk(st.sessions[s]);
      assert status.Running? ==> next == st by {
        assert st.sessions[s := st.sessions[s]] == st.sessions;
      }
      if next != st {
        assert !SessionOk(next.sessions[s]);
      }
    }
  }

  /**
   * The restriction on progress reports is needed. A report of `queued` leaves the worktree with a session that
   * is queued again; the next assignment takes a second worktree and the first is never given back.
   */
  lemma QueuedReportLeaks(s: string, host: string)
    ensures exists acts: seq<Action> ::
              var st := Run(EMPTY, acts);
              && "w1" in st.worktrees && st.worktrees["w1"].busy && st.worktrees["w1"].session == Some(s)
              && s in st.sessions && st.sessions[s].worktree == Some("w2")
  {
    hide Run, Place, AssignAll, Sweep, OfflineAll, Cancel, RollBack, TimeOut;
    var a0, a1, a2 := Submit(s), Advertise("w1", host, true), Advertise("w2", host, true);
    var c1, c2 := Candidate("w1", true, true, "a1"), Candidate("w2", true, true, "a2");
    var a3 := AssignQueued([Turn(s, Assign([c1]))], 0);
    var a4 := HostReport(s, Some("w1"), "a1", Progress(Queued));
    var a5 := AssignQueued([Turn(s, Assign([c2]))], 1);
    var idle := Worktree(host, false, None, true);
    var s0 := Step(EMPTY, a0);
    var s2 := Step(Step(s0, a1), a2);
    assert s2.worktrees["w1"] == idle && s2.worktrees["w2"] == idle && s2.sessions[s].status.Queued?;
    AssignSingle(s2, s, c1, 0);
    var s3 := Step(s2, a3);
    assert s3.sessions[s].status.Running? && s3.worktrees["w2"] == idle;
    var s4 := Step(s3, a4);
    assert s4.sessions[s].status.Queued?;
    AssignSingle(s4, s, c2, 1);
    RunOne(EMPTY, [], a0);
    RunOne(EMPTY, [] + [a0], a1);
    RunOne(EMPTY, [] + [a0] + [a1], a2);
    RunOne(EMPTY, [] + [a0] + [a1] + [a2], a3);
    RunOne(EMPTY, [] + [a0] + [a1] + [a2] + [a3], a4);
    RunOne(EMPTY, [] + [a0] + [a1] + [a2] + [a3] + [a4], a5);
    assert Run(EMPTY, [] + [a0] + [a1] + [a2] + [a3] + [a4] + [a5]) == Step(s4, a5);
  }

  lemma RunOne(st: State, acts: seq<Action>, a: Action)
    ensures acts == [] ==> Run(st, acts) == st
    ensures Run(st, acts + [a]) == Step(Run(st, acts), a)
  {
    assert (acts + [a])[..|acts|] == acts;
  }

  lemma AssignSingle(st: State, s: string, c: Candidate, now: int)
    requires s in st.sessions && st.sessions[s].status.Queued? && Usable(st, c)
    ensures AssignAll(st, [Turn(s, Assign([c]))], now) == Bind(st, s, c, now)
  {
    assert [Turn(s, Assign([c]))][..0] == [];
    assert AssignOne(st, Turn(s, Assign([c])), now) == Place(st, s, [c], now);
  }

  lemma ReleaseKeeps(st: State, w: string)
    ensures Release(st, w) == st.(worktrees := Release(st, w).worktrees)
  {
  }

  /** What a sweep has done and reported after visiting `done`. */
  ghost predicate Reported(st: State, next: State, done: seq<string>, requeued: seq<string>, now: int, deadline: int) {
    && next.sessions.Keys == st.sessions.Keys
    && (forall s :: s in next.pending ==> s in st.pending && next.pending[s] == st.pending[s])
    && (forall s :: s !in done && s in st.pending ==> s in next.pending)
    && (forall s :: s !in done && s in st.sessions ==> next.sessions[s] == st.sessions[s])
    && (forall s :: s in done && s in next.pending ==> !Due(st, s, now, deadline))
    && (forall s :: s in requeued <==> s in done && Due(st, s, now, deadline) && Armed(st, s))
    && (forall s :: s in requeued ==> s !in next.pending && s in next.sessions && next.sessions[s].status.Queued?)
  }

  lemma ReportedStep(st: State, mid: State, done: seq<string>, s: string, requeued: seq<string>, now: int, deadline: int)
    requires Reported(st, mid, done, requeued, now, deadline)
    ensures var more := if Due(mid, s, now, deadline) && Armed(mid, s) then requeued + [s] else requeued;
            Reported(st, SweepOne(mid, s, now, deadline), done + [s], more, now, deadline)
  {
    hide Release;
    assert forall t :: t in done + [s] <==> t in done || t == s;
  }

  // The same operations, updating the maps of the control plane in place

  class ControlPlane {
    var sessions: map<string, Session>
    var worktrees: map<string, Worktree>
    var pending: map<string, Pending>
    var draining: set<string>
    var disconnected: set<string>

    function Model(): State
      reads this
    {
      State(sessions, worktrees, pending, draining, disconnected)
    }

    method TryClaimWorktree(w: string, s: string) returns (won: bool)
      modifies this
      ensures won == Claimable(old(Model()), w)
      ensures Model() == if won then Claim(old(Model()), w, s) else old(Model())
    {
      if w !in worktrees || worktrees[w].busy || !worktrees[w].online {
        return false;
      }
      worktrees := worktrees[w := worktrees[w].(busy := true, session := Some(s))];
      return true;
    }

    method ReleaseWorktree(w: string)
      modifies this
      ensures Model() == Release(old(Model()), w)
    {
      if w in worktrees {
        var wt := worktrees[w].(busy := false, session := None);
        if wt.host in draining || wt.host in disconnected {
          wt := wt.(online := false);
        }
        worktrees := worktrees[w := wt];
      }
    }

    method PlaceSession(s: string, candidates: seq<Candidate>, now: int)
      requires s in sessions
      modifies this
      ensures Model() == Place(old(Model()), s, candidates, now)
    {
      var i := 0;
      while i < |candidates|
        invariant 0 <= i <= |candidates| && sessions == old(sessions)
        invariant Place(Model(), s, candidates[i..], now) == Place(old(Model()), s, candidates, now)
      {
        var c := candidates[i];
        assert candidates[i..][0] == c && candidates[i..][1..] == candidates[i + 1..];
        i := i + 1;
        if !c.ready {
          continue;
        }
        var won := TryClaimWorktree(c.worktree, s);
        if !won {
          continue;
        }
        if !c.leased {
          ReleaseWorktree(c.worktree);
          continue;
        }
        sessions := sessions[s := Session(Running, Some(c.worktree), Some(worktrees[c.worktree].host), Some(c.attempt), false)];
        pending := pending[s := Pending(c.worktree, c.attempt, now)];
        return;
      }
      assert candidates[i..] == [];
    }

    method AssignQueuedSessions(turns: seq<Turn>, now: int)
      modifies this
      ensures Model() == AssignAll(old(Model()), turns, now)
    {
      for i := 0 to |turns|
        invariant Model() == AssignAll(old(Model()), turns[..i], now)
      {
        hide AssignAll, Place;
        var turn := turns[i];
        AssignNext(old(Model()), turns, i, now);
        if turn.session in sessions && sessions[turn.session].status.Queued? {
          match turn.plan {
            case Leave =>
            case Expire => sessions := sessions[turn.session := sessions[turn.session].(status := Failed)];
            case Assign(candidates) => PlaceSession(turn.session, candidates, now);
          }
        }
      }
      assert turns[..|turns|] == turns;
    }

    method EnforceAckDeadlines(order: seq<string>, now: int, deadline: int) returns (requeued: seq<string>)
      modifies this
      ensures Model() == Sweep(old(Model()), order, now, deadline)
      ensures forall s :: s in requeued <==> s in order && Due(old(Model()), s, now, deadline) && Armed(old(Model()), s)
      ensures forall s :: s in requeued ==> s !in pending && s in sessions && sessions[s].status.Queued?
    {
      requeued := [];
      for i := 0 to |order|
        invariant Model() == Sweep(old(Model()), order[..i], now, deadline)
        invariant Reported(old(Model()), Model(), order[..i], requeued, now, deadline)
      {
        hide Sweep, Reported, Release;
        var s := order[i];
        SweepNext(old(Model()), order, i, now, deadline);
        ReportedStep(old(Model()), Model(), order[..i], s, requeued, now, deadline);
        assert order[..i + 1] == order[..i] + [s];
        if s !in pending || now - pending[s].assignedAt < deadline {
          continue;
        }
        var p := pending[s];
        if s !in sessions || sessions[s].acked || sessions[s].worktree != Some(p.worktree) || sessions[s].attempt != Some(p.attempt) {
          pending := pending - {s};
          continue;
        }
        ReleaseKeeps(Model(), p.worktree);
        ReleaseWorktree(p.worktree);
        sessions := sessions[s := sessions[s].(status := Queued, worktree := None, host := None)];
        pending := pending - {s};
        requeued := requeued + [s];
      }
      assert order[..|order|] == order;
    }

    method CancelLocal(s: string) returns (ok: bool)
      modifies this
      ensures ok == (s in old(sessions) && !Terminal(old(sessions)[s].status))
      ensures Model() == Cancel(old(Model()), s)
    {
      if s !in sessions || Terminal(sessions[s].status) {
        return false;
      }
      pending := pending - {s};
      var session := sessions[s];
      if session.status.Running? && session.host.Some? {
        sessions := sessions[s := session.(status := Cancelled)];
        return true;
      }
      if session.worktree.Some? {
        ReleaseWorktree(session.worktree.value);
      }
      sessions := sessions[s := session.(status := Cancelled, worktree := None, host := None)];
      return true;
    }

    method RequeueUnackedWorktree(w: string) returns (requeued: Option<string>)
      modifies this
      ensures Model() == RollBack(old(Model()), w)
      ensures requeued.Some? <==> exists s :: s in old(sessions) && old(sessions)[s].status.Running? && s in sessions && sessions[s].status.Queued?
      ensures requeued.Some? ==> w in old(worktrees) && old(worktrees)[w].session == requeued
    {
      if w !in worktrees || worktrees[w].session.None? {
        return None;
      }
      var s := worktrees[w].session.value;
      if s !in sessions || !Provisional(sessions[s]) {
        return None;
      }
      ReleaseWorktree(w);
      var session := sessions[s];
      requeued := None;
      if session.status.Running? {
        session := session.(status := Queued);
        requeued := Some(s);
      }
      sessions := sessions[s := session.(worktree := None, host := None)];
      pending := pending - {s};
    }

    method OfflineHostAndRequeue(host: string, order: seq<string>)
      modifies this
      ensures Model() == OfflineAll(old(Model()), host, order)
    {
      for i := 0 to |order|
        invariant Model() == OfflineAll(old(Model()), host, order[..i])
      {
        hide OfflineAll;
        var w := order[i];
        OfflineNext(old(Model()), host, order, i);
        if w !in worktrees || worktrees[w].host != host {
          continue;
        }
        worktrees := worktrees[w := worktrees[w].(online := false)];
        var s := worktrees[w].session;
        if s.Some? && s.value in sessions && sessions[s.value].status.Running? && !sessions[s.value].acked {
          ReleaseWorktree(w);
          sessions := sessions[s.value := sessions[s.value].(status := Queued, worktree := None, host := None)];
          pending := pending - {s.value};
        }
      }
      assert order[..|order|] == order;
    }
  }

  lemma AssignNext(st: State, turns: seq<Turn>, i: nat, now: int)
    requires i < |turns|
    ensures AssignAll(st, turns[..i + 1], now) == AssignOne(AssignAll(st, turns[..i], now), turns[i], now)
  {
    hide AssignOne;
    assert turns[..i + 1][..i] == turns[..i];
  }

  lemma SweepNext(st: State, order: seq<string>, i: nat, now: int, deadline: int)
    requires i < |order|
    ensures Sweep(st, order[..i + 1], now, deadline) == SweepOne(Sweep(st, order[..i], now, deadline), order[i], now, deadline)
  {
    hide SweepOne;
    assert order[..i + 1][..i] == order[..i];
  }

  lemma OfflineNext(st: State, host: string, order: seq<string>, i: nat)
    requires i < |order|
    ensures OfflineAll(st, host, order[..i + 1]) == OfflineOne(OfflineAll(st, host, order[..i]), host, order[i])
  {
    hide OfflineOne;
    assert order[..i + 1][..i] == order[..i];
  }
}
