/** What each handler of the in-memory control plane does to sessions, deadlines and worktrees, field by field. */
module SessionEffects {
  import opened Options
  import opened Sessions

  /** Nothing differs but session `s`, its deadline, and worktree `w`. */
  ghost predicate Elsewhere(st: State, next: State, s: string, w: Option<string>) {
    && next.draining == st.draining && next.disconnected == st.disconnected
    && next.sessions.Keys == st.sessions.Keys && next.worktrees.Keys == st.worktrees.Keys
    && (forall t :: t in st.sessions && t != s ==> next.sessions[t] == st.sessions[t])
    && (forall t :: t in st.pending && t != s ==> t in next.pending && next.pending[t] == st.pending[t])
    && (forall t :: t in next.pending && t != s ==> t in st.pending)
    && (forall v :: v in st.worktrees && Some(v) != w ==> next.worktrees[v] == st.worktrees[v])
  }

  ghost predicate Present(st: State, host: string) { host !in st.draining && host !in st.disconnected }

  /** The worktree is idle, and stays online only if its host is there. */
  ghost predicate Freed(st: State, next: State, w: string) {
    && w in st.worktrees && w in next.worktrees
    && !next.worktrees[w].busy && next.worktrees[w].session.None? && next.worktrees[w].host == st.worktrees[w].host
    && (next.worktrees[w].online <==> st.worktrees[w].online && Present(st, st.worktrees[w].host))
  }

  ghost predicate BusyFor(st: State, w: string, s: string) {
    w in st.worktrees && st.worktrees[w].busy && st.worktrees[w].session == Some(s)
  }

  /** The session has given up its place; its attempt and acknowledgement are remembered. */
  ghost predicate Placeless(before: Session, after: Session, status: Status) {
    && after.status == status && after.worktree.None? && after.host.None?
    && after.attempt == before.attempt && after.acked == before.acked
  }

  // Cancelling

  /** A running session is cancelled where it is and keeps its place; any other one has none to keep. */
  lemma CancelEffect(st: State, s: string)
    requires Inv(st) && s in st.sessions && !Terminal(st.sessions[s].status)
    ensures var next, was := Cancel(st, s), st.sessions[s];
            && Elsewhere(st, next, s, None) && s !in next.pending && next.worktrees == st.worktrees
            && next.sessions[s].status == Cancelled
            && next.sessions[s].attempt == was.attempt && next.sessions[s].acked == was.acked
            && (was.status.Running? ==>
                  && next.sessions[s].host == was.host && next.sessions[s].worktree == was.worktree
                  && was.worktree.Some? && BusyFor(next, was.worktree.value, s))
            && (!was.status.Running? ==> next.sessions[s].worktree.None? && next.sessions[s].host.None?)
  {
    assert SessionOk(st.sessions[s]);
  }

  /** An unknown or ended session is not cancelled again. */
  lemma CancelRefused(st: State, s: string)
    requires s !in st.sessions || Terminal(st.sessions[s].status)
    ensures Cancel(st, s) == st
  {
  }

  /** The report that ends attempt `attempt` of session `s` on worktree `w`, or the host's rollback of `w`. */
  predicate Ends(a: Action, s: string, w: string, attempt: Option<string>, acked: bool) {
    || (a.HostReport? && a.session == s && a.worktree == Some(w) && Some(a.attempt) == attempt && !a.report.Progress?)
    || (a.RollBackWorktree? && a.id == w && !acked)
  }

  ghost predicate CancelledOn(st: State, s: string, w: string) {
    s in st.sessions && st.sessions[s].status.Cancelled? && st.sessions[s].worktree == Some(w)
  }

  lemma AssignLeavesCancelled(st: State, turn: Turn, now: int, s: string, w: string)
    requires Inv(st) && CancelledOn(st, s, w)
    ensures var next := AssignOne(st, turn, now); s in next.sessions && next.sessions[s] == st.sessions[s]
  {
    hide Inv;
    if turn.session in st.sessions && turn.session != s && turn.plan.Assign? {
      PlaceElsewhere(st, turn.session, turn.plan.candidates, now);
    }
  }

  lemma {:induction false} PlaceElsewhere(st: State, s: string, candidates: seq<Candidate>, now: int)
    requires s in st.sessions
    ensures var next := Place(st, s, candidates, now);
            && next.sessions.Keys == st.sessions.Keys && next.worktrees.Keys == st.worktrees.Keys
            && next.draining == st.draining && next.disconnected == st.disconnected
            && (forall t :: t in st.sessions && t != s ==> next.sessions[t] == st.sessions[t])
            && (forall t :: t != s ==> (t in next.pending <==> t in st.pending))
            && (forall t :: t != s && t in st.pending ==> next.pending[t] == st.pending[t])
            && (forall w :: w in st.worktrees && st.worktrees[w].busy ==> next.worktrees[w] == st.worktrees[w])
    decreases candidates
  {
    if candidates != [] {
      var c := candidates[0];
      if c.ready && Claimable(st, c.worktree) && !c.leased {
        PlaceElsewhere(Release(Claim(st, c.worktree, s), c.worktree), s, candidates[1..], now);
      } else {
        PlaceElsewhere(st, s, candidates[1..], now);
      }
    }
  }

  lemma {:induction false} AssignAllLeavesCancelled(st: State, turns: seq<Turn>, now: int, s: string, w: string)
    requires Inv(st) && CancelledOn(st, s, w)
    ensures var next := AssignAll(st, turns, now); s in next.sessions && next.sessions[s] == st.sessions[s]
  {
    hide Inv, AssignOne;
    if turns != [] {
      var init := turns[..|turns| - 1];
      AssignAllLeavesCancelled(st, init, now, s, w);
      AssignAllKeepsInv(st, init, now);
      AssignLeavesCancelled(AssignAll(st, init, now), turns[|turns| - 1], now, s, w);
    }
  }

  lemma {:induction false} OfflineLeavesCancelled(st: State, host: string, order: seq<string>, s: string)
    requires s in st.sessions && st.sessions[s].status.Cancelled?
    ensures var next := OfflineAll(st, host, order); s in next.sessions && next.sessions[s] == st.sessions[s]
  {
    if order != [] {
      OfflineLeavesCancelled(st, host, order[..|order| - 1], s);
    }
  }

  lemma StepLeavesCancelled(st: State, a: Action, s: string, w: string)
    requires Inv(st) && CancelledOn(st, s, w) && Sensible(a)
    requires !Ends(a, s, w, st.sessions[s].attempt, st.sessions[s].acked)
    ensures var next := Step(st, a); s in next.sessions && next.sessions[s] == st.sessions[s]
  {
    hide AssignAll, Sweep, OfflineAll;
    match a
    case AssignQueued(turns, at) => AssignAllLeavesCancelled(st, turns, at, s, w);
    case SweepAcks(order, at, deadline) =>
      SweepExact(st, order, at, deadline, s);
      NotPending(st, s);
    case DisconnectHost(host, order) =>
      OfflineLeavesCancelled(st.(draining := st.draining - {host}, disconnected := st.disconnected + {host}), host, order, s);
    case RollBackWorktree(v) =>
    case _ =>
  }

  /**
   * Over any run, a cancelled session keeps its worktree busy until the host reports the end of that attempt, or
   * rolls the worktree back before having acknowledged it.
   */
  lemma {:induction false} HeldAfterCancel(st: State, acts: seq<Action>, s: string, w: string)
    requires Inv(st) && SensibleRun(acts) && CancelledOn(st, s, w)
    requires forall i :: 0 <= i < |acts| ==> !Ends(acts[i], s, w, st.sessions[s].attempt, st.sessions[s].acked)
    ensures var next := Run(st, acts); s in next.sessions && next.sessions[s] == st.sessions[s] && BusyFor(next, w, s)
  {
    if acts != [] {
      var init := acts[..|acts| - 1];
      hide Step, Inv;
      HeldAfterCancel(st, init, s, w);
      RunKeepsInv(st, init);
      StepLeavesCancelled(Run(st, init), acts[|acts| - 1], s, w);
    }
    RunKeepsInv(st, acts);
    HolderIsNamed(Run(st, acts), s, w);
  }

  lemma HolderIsNamed(st: State, s: string, w: string)
    requires Inv(st) && s in st.sessions && st.sessions[s].worktree == Some(w)
    ensures BusyFor(st, w, s)
  {
  }

  // Reports

  /** The report of an end frees the worktree; a running session takes the reported status, an ended one keeps its own. */
  lemma EndReportEffect(st: State, s: string, w: string, attempt: string, status: Status)
    requires Inv(st) && s in st.sessions && st.sessions[s].worktree == Some(w) && st.sessions[s].attempt == Some(attempt)
    ensures var next, was := ApplyReport(st, s, Some(w), attempt, Ended(status)), st.sessions[s];
            && Elsewhere(st, next, s, Some(w)) && s !in next.pending && Freed(st, next, w)
            && next.sessions[s].status == (if was.status.Running? then status else was.status)
            && next.sessions[s].worktree.None? && next.sessions[s].host == was.host
            && next.sessions[s].attempt == was.attempt && next.sessions[s].acked == was.acked
  {
    if !st.sessions[s].status.Running? {
      NotPending(st, s);
    }
  }

  /** The report of an end that is retried puts a running session back in the queue; an ended one stays ended. */
  lemma RetryReportEffect(st: State, s: string, w: string, attempt: string)
    requires Inv(st) && s in st.sessions && st.sessions[s].worktree == Some(w) && st.sessions[s].attempt == Some(attempt)
    ensures var next, was := ApplyReport(st, s, Some(w), attempt, Retried), st.sessions[s];
            && Elsewhere(st, next, s, Some(w)) && s !in next.pending && Freed(st, next, w)
            && (was.status.Running? ==> Placeless(was, next.sessions[s], Queued))
            && (!was.status.Running? ==> next.sessions[s] == was.(worktree := None))
  {
    if !st.sessions[s].status.Running? {
      NotPending(st, s);
    }
  }

  /** A report about another attempt or another worktree is ignored. */
  lemma StaleReportIgnored(st: State, s: string, worktree: Option<string>, attempt: string, report: Report)
    requires s !in st.sessions || st.sessions[s].worktree != worktree || st.sessions[s].attempt != Some(attempt)
    ensures ApplyReport(st, s, worktree, attempt, report) == st && Acknowledge(st, s, worktree, attempt) == st
  {
  }

  /** The acknowledgement of the current attempt, the first time, disarms its deadline and changes nothing else. */
  lemma AcknowledgeEffect(st: State, s: string, worktree: Option<string>, attempt: string)
    requires s in st.sessions && st.sessions[s].worktree == worktree && st.sessions[s].attempt == Some(attempt)
    ensures var next := Acknowledge(st, s, worktree, attempt);
            if st.sessions[s].status.Running? && !st.sessions[s].acked then
              && Elsewhere(st, next, s, None) && s !in next.pending && next.sessions[s].acked
              && next.sessions[s].status.Running? && next.sessions[s].worktree == worktree
              && next.sessions[s].host == st.sessions[s].host && next.sessions[s].attempt == Some(attempt)
            else next == st
  {
  }

  /** After its acknowledgement no deadline can take the session back. */
  lemma AcknowledgedIsSafe(st: State, s: string, worktree: Option<string>, attempt: string, order: seq<string>, now: int, deadline: int)
    requires Inv(st) && s in st.sessions && st.sessions[s].worktree == worktree && st.sessions[s].attempt == Some(attempt)
    requires st.sessions[s].status.Running? && !st.sessions[s].acked
    ensures var next := Acknowledge(st, s, worktree, attempt); Sweep(next, order, now, deadline).sessions[s] == next.sessions[s]
  {
    AcknowledgeKeepsInv(st, s, worktree, attempt);
    SweepExact(Acknowledge(st, s, worktree, attempt), order, now, deadline, s);
  }

  /** An acknowledged running session that exceeds its time ends as timed out and frees its worktree. */
  lemma TimeOutEffect(st: State, s: string)
    requires Inv(st)
    ensures var next := TimeOut(st, s);
            if s in st.sessions && st.sessions[s].status.Running? && st.sessions[s].acked then
              && Elsewhere(st, next, s, st.sessions[s].worktree) && s !in next.pending
              && Placeless(st.sessions[s], next.sessions[s], TimedOut) && Freed(st, next, st.sessions[s].worktree.value)
            else next == st
  {
    if s in st.sessions {
      assert SessionOk(st.sessions[s]);
    }
  }

  /** The host gives a worktree back before acknowledging: a running session is queued again, a cancelled one stays so. */
  lemma RollBackEffect(st: State, w: string)
    requires Inv(st) && w in st.worktrees
    ensures var next, s := RollBack(st, w), st.worktrees[w].session;
            if s.Some? && !st.sessions[s.value].acked then
              && Elsewhere(st, next, s.value, Some(w)) && s.value !in next.pending && Freed(st, next, w)
              && Placeless(st.sessions[s.value], next.sessions[s.value], if st.sessions[s.value].status.Running? then Queued else Cancelled)
            else next == st
  {
    var s := st.worktrees[w].session;
    if s.Some? {
      assert SessionOk(st.sessions[s.value]);
    }
  }

  // The acknowledgement deadline

  ghost predicate Overdue(st: State, s: string, now: int, deadline: int) {
    s in st.pending && st.pending[s].assignedAt + deadline <= now
  }

  lemma SweepOneWorktrees(st: State, s: string, now: int, deadline: int)
    requires Inv(st)
    ensures var next := SweepOne(st, s, now, deadline);
            && next.worktrees.Keys == st.worktrees.Keys && next.draining == st.draining && next.disconnected == st.disconnected
            && (forall w :: w in st.worktrees ==>
                  if st.worktrees[w].session == Some(s) && Overdue(st, s, now, deadline) then Freed(st, next, w)
                  else next.worktrees[w] == st.worktrees[w])
  {
    if s in st.pending {
      assert PendingOk(st, s);
    }
  }

  /** A worktree is freed if its session is overdue, and untouched otherwise. */
  ghost predicate WorktreeSwept(st: State, next: State, order: seq<string>, now: int, deadline: int, w: string)
    requires w in st.worktrees
  {
    var s := st.worktrees[w].session;
    if s.Some? && s.value in order && Overdue(st, s.value, now, deadline) then Freed(st, next, w)
    else w in next.worktrees && next.worktrees[w] == st.worktrees[w]
  }

  lemma {:induction false} SweepWorktree(st: State, order: seq<string>, now: int, deadline: int, w: string)
    requires Inv(st) && w in st.worktrees
    ensures WorktreeSwept(st, Sweep(st, order, now, deadline), order, now, deadline, w)
  {
    hide SweepOne, Inv;
    if order != [] {
      var init, last := order[..|order| - 1], order[|order| - 1];
      var mid := Sweep(st, init, now, deadline);
      SweepWorktree(st, init, now, deadline, w);
      SweepKeepsInv(st, init, now, deadline);
      SweepOneWorktrees(mid, last, now, deadline);
      SweepExact(st, init, now, deadline, last);
      SweepFlags(st, init, now, deadline);
      assert order == init + [last];
    }
  }

  /** The sweep requeues exactly the overdue sessions and frees exactly their worktrees. */
  lemma SweepEffect(st: State, order: seq<string>, now: int, deadline: int)
    requires Inv(st)
    ensures var next := Sweep(st, order, now, deadline);
            && next.draining == st.draining && next.disconnected == st.disconnected
            && (forall s :: s in st.sessions ==>
                  if s in order && Overdue(st, s, now, deadline) then Placeless(st.sessions[s], next.sessions[s], Queued)
                  else next.sessions[s] == st.sessions[s])
            && (forall s :: s in next.pending <==> s in st.pending && !(s in order && Overdue(st, s, now, deadline)))
            && (forall w :: w in st.worktrees ==> WorktreeSwept(st, next, order, now, deadline, w))
  {
    hide Sweep, WorktreeSwept, Inv;
    var next := Sweep(st, order, now, deadline);
    forall s
      ensures s in st.sessions ==>
                if s in order && Overdue(st, s, now, deadline) then Placeless(st.sessions[s], next.sessions[s], Queued)
                else next.sessions[s] == st.sessions[s]
      ensures s in next.pending <==> s in st.pending && !(s in order && Overdue(st, s, now, deadline))
    {
      SweepExact(st, order, now, deadline, s);
    }
    forall w | w in st.worktrees
      ensures WorktreeSwept(st, next, order, now, deadline, w)
    {
      SweepWorktree(st, order, now, deadline, w);
    }
    SweepFlags(st, order, now, deadline);
  }

  lemma {:induction false} SweepFlags(st: State, order: seq<string>, now: int, deadline: int)
    ensures var next := Sweep(st, order, now, deadline); next.draining == st.draining && next.disconnected == st.disconnected
  {
    if order != [] {
      SweepFlags(st, order[..|order| - 1], now, deadline);
    }
  }

  // A host that goes away

  lemma OfflineOneEffect(st: State, host: string, w: string)
    requires Inv(st)
    ensures var next := OfflineOne(st, host, w);
            if w in st.worktrees && st.worktrees[w].host == host then
              && w in next.worktrees && !next.worktrees[w].online && next.worktrees[w].host == host
              && (var s := st.worktrees[w].session;
                  if s.Some? && st.sessions[s.value].status.Running? && !st.sessions[s.value].acked then
                    && Elsewhere(st, next, s.value, Some(w)) && s.value !in next.pending
                    && Placeless(st.sessions[s.value], next.sessions[s.value], Queued)
                    && !next.worktrees[w].busy && next.worktrees[w].session.None?
                  else
                    && next.sessions == st.sessions && next.pending == st.pending
                    && next.draining == st.draining && next.disconnected == st.disconnected
                    && next.worktrees == st.worktrees[w := st.worktrees[w].(online := false)])
            else next == st
  {
  }

  /** The session runs unacknowledged on a listed worktree of the host. */
  ghost predicate TakenBack(st: State, host: string, order: seq<string>, s: string) {
    && s in st.sessions && st.sessions[s].status.Running? && !st.sessions[s].acked && st.sessions[s].worktree.Some?
    && var w := st.sessions[s].worktree.value; w in order && w in st.worktrees && st.worktrees[w].host == host
  }

  ghost predicate SessionsTakenBack(st: State, next: State, host: string, order: seq<string>) {
    && next.sessions.Keys == st.sessions.Keys
    && (forall s :: s in st.sessions ==>
          if TakenBack(st, host, order, s) then Placeless(st.sessions[s], next.sessions[s], Queued)
          else next.sessions[s] == st.sessions[s])
    && (forall s :: s in next.pending <==> s in st.pending && !TakenBack(st, host, order, s))
    && (forall s :: s in next.pending ==> next.pending[s] == st.pending[s])
  }

  ghost predicate WorktreesOffline(st: State, next: State, host: string, order: seq<string>) {
    && next.draining == st.draining && next.disconnected == st.disconnected && next.worktrees.Keys == st.worktrees.Keys
    && (forall w :: w in st.worktrees ==>
          if w in order && st.worktrees[w].host == host then !next.worktrees[w].online && next.worktrees[w].host == host
          else next.worktrees[w] == st.worktrees[w])
  }

  /** Whom the next worktree takes back. */
  lemma TakenNext(st: State, mid: State, host: string, init: seq<string>, w: string, s: string)
    requires Inv(mid) && SessionsTakenBack(st, mid, host, init) && WorktreesOffline(st, mid, host, init)
    ensures TakenBack(st, host, init + [w], s) <==> TakenBack(st, host, init, s) || TakenBack(mid, host, [w], s)
    ensures TakenBack(mid, host, [w], s) ==> !TakenBack(st, host, init, s) && mid.sessions[s] == st.sessions[s]
    ensures TakenBack(mid, host, [w], s) <==>
            && w in mid.worktrees && mid.worktrees[w].host == host && mid.worktrees[w].session == Some(s)
            && s in mid.sessions && mid.sessions[s].status.Running? && !mid.sessions[s].acked
  {
    hide Inv;
    HolderAgrees(mid, s, w);
    assert forall v :: v in init + [w] <==> v in init || v == w;
  }

  lemma OfflineStepSessions(st: State, mid: State, host: string, init: seq<string>, w: string)
    requires Inv(mid) && SessionsTakenBack(st, mid, host, init) && WorktreesOffline(st, mid, host, init)
    ensures SessionsTakenBack(st, OfflineOne(mid, host, w), host, init + [w])
  {
    forall s
      ensures TakenBack(st, host, init + [w], s) <==> TakenBack(st, host, init, s) || TakenBack(mid, host, [w], s)
      ensures TakenBack(mid, host, [w], s) ==> !TakenBack(st, host, init, s) && mid.sessions[s] == st.sessions[s]
      ensures TakenBack(mid, host, [w], s) <==>
              && w in mid.worktrees && mid.worktrees[w].host == host && mid.worktrees[w].session == Some(s)
              && s in mid.sessions && mid.sessions[s].status.Running? && !mid.sessions[s].acked
    {
      TakenNext(st, mid, host, init, w, s);
    }
    OfflineOneEffect(mid, host, w);
    hide Inv, OfflineOne, TakenBack, WorktreesOffline;
  }

  lemma OfflineStepWorktrees(st: State, mid: State, host: string, init: seq<string>, w: string)
    requires Inv(mid) && WorktreesOffline(st, mid, host, init)
    ensures WorktreesOffline(st, OfflineOne(mid, host, w), host, init + [w])
  {
    hide Inv, OfflineOne;
    OfflineOneEffect(mid, host, w);
    assert forall v :: v in init + [w] <==> v in init || v == w;
  }

  lemma HolderAgrees(st: State, s: string, w: string)
    requires Inv(st)
    ensures s in st.sessions && st.sessions[s].worktree == Some(w) <==> w in st.worktrees && st.worktrees[w].session == Some(s)
  {
  }

  lemma {:induction false} OfflineAllEffect(st: State, host: string, order: seq<string>)
    requires Inv(st)
    ensures SessionsTakenBack(st, OfflineAll(st, host, order), host, order)
    ensures WorktreesOffline(st, OfflineAll(st, host, order), host, order)
  {
    if order != [] {
      hide OfflineOne, Inv, SessionsTakenBack, WorktreesOffline;
      var init := order[..|order| - 1];
      OfflineAllEffect(st, host, init);
      OfflineAllKeepsInv(st, host, init);
      OfflineStepSessions(st, OfflineAll(st, host, init), host, init, order[|order| - 1]);
      OfflineStepWorktrees(st, OfflineAll(st, host, init), host, init, order[|order| - 1]);
      assert order == init + [order[|order| - 1]];
    }
  }

  /**
   * A host that goes away: all its worktrees are offline, its unacknowledged sessions are queued again, and its
   * acknowledged ones go on holding their worktrees. No other host, session or worktree is touched.
   */
  lemma DisconnectEffect(st: State, host: string, order: seq<string>)
    requires Inv(st) && forall w :: w in st.worktrees ==> w in order
    ensures var next := Disconnect(st, host, order);
            && next.disconnected == st.disconnected + {host} && next.draining == st.draining - {host}
            && next.worktrees.Keys == st.worktrees.Keys && next.sessions.Keys == st.sessions.Keys
            && (forall w :: w in st.worktrees ==>
                  if st.worktrees[w].host == host then !next.worktrees[w].online && next.worktrees[w].host == host
                  else next.worktrees[w] == st.worktrees[w])
            && (forall s :: s in st.sessions ==>
                  if st.sessions[s].status.Running? && !st.sessions[s].acked && st.sessions[s].worktree.Some?
                     && st.worktrees[st.sessions[s].worktree.value].host == host
                  then Placeless(st.sessions[s], next.sessions[s], Queued) && s !in next.pending
                  else next.sessions[s] == st.sessions[s] && (s in next.pending <==> s in st.pending))
  {
    hide OfflineAll;
    var gone := st.(draining := st.draining - {host}, disconnected := st.disconnected + {host});
    FlagsKeepInv(st, gone.draining, gone.disconnected);
    OfflineAllEffect(gone, host, order);
  }

  // Placement

  /** The queue is served in order: a first batch is placed before a second one sees any worktree. */
  lemma {:induction false} ServedInOrder(st: State, first: seq<Turn>, second: seq<Turn>, now: int)
    ensures AssignAll(st, first + second, now) == AssignAll(AssignAll(st, first, now), second, now)
    decreases second
  {
    hide AssignOne;
    if second == [] {
      assert first + second == first;
    } else {
      var init := second[..|second| - 1];
      ServedInOrder(st, first, init, now);
      assert (first + second)[..|first + second| - 1] == first + init;
    }
  }

  /** Without a usable candidate the session stays queued as it is, and no deadline is armed. */
  lemma {:induction false} NoneUsableWaits(st: State, s: string, candidates: seq<Candidate>, now: int)
    requires s in st.sessions && forall i :: 0 <= i < |candidates| ==> !(candidates[i].ready && candidates[i].leased && Claimable(st, candidates[i].worktree))
    ensures Place(st, s, candidates, now).sessions == st.sessions && Place(st, s, candidates, now).pending == st.pending
    decreases candidates
  {
    if candidates != [] {
      var c, rest := candidates[0], candidates[1..];
      assert forall i :: 0 <= i < |rest| ==> rest[i] == candidates[i + 1];
      if c.ready && Claimable(st, c.worktree) {
        var back := Release(Claim(st, c.worktree, s), c.worktree);
        assert forall w :: Claimable(back, w) ==> Claimable(st, w);
        NoneUsableWaits(back, s, rest, now);
      } else {
        NoneUsableWaits(st, s, rest, now);
      }
    }
  }

  /** A turn concerns queued sessions only: an expired one fails, a postponed one is left alone. */
  lemma TurnEffect(st: State, s: string, plan: Plan, now: int)
    ensures var next := AssignOne(st, Turn(s, plan), now);
            && (s !in st.sessions || !st.sessions[s].status.Queued? || plan.Leave? ==> next == st)
            && (s in st.sessions && st.sessions[s].status.Queued? && plan.Expire? ==>
                  && Elsewhere(st, next, s, None) && next.pending == st.pending && next.worktrees == st.worktrees
                  && next.sessions[s].status == Failed && next.sessions[s].worktree == st.sessions[s].worktree)
  {
  }

  // Arrivals

  /** A new session waits unplaced and unacknowledged; a known id is left alone. */
  lemma SubmitEffect(st: State, s: string)
    ensures var next := Step(st, Submit(s));
            if s in st.sessions then next == st
            else
              && next == st.(sessions := next.sessions) && next.sessions.Keys == st.sessions.Keys + {s}
              && (forall t :: t in st.sessions ==> next.sessions[t] == st.sessions[t])
              && next.sessions[s].status.Queued? && next.sessions[s].worktree.None? && next.sessions[s].host.None?
              && next.sessions[s].attempt.None? && !next.sessions[s].acked
  {
  }

  /** A worktree in use is neither advertised anew nor withdrawn; an idle one takes the advertised host and state, or goes. */
  lemma InventoryEffect(st: State, w: string, host: string, online: bool)
    ensures var added, gone := Step(st, Advertise(w, host, online)), Step(st, Withdraw(w));
            if w in st.worktrees && st.worktrees[w].busy then added == st && gone == st
            else
              && added == st.(worktrees := added.worktrees) && gone == st.(worktrees := gone.worktrees)
              && added.worktrees.Keys == st.worktrees.Keys + {w} && gone.worktrees.Keys == st.worktrees.Keys - {w}
              && (forall v :: v in st.worktrees && v != w ==> added.worktrees[v] == st.worktrees[v] && gone.worktrees[v] == st.worktrees[v])
              && added.worktrees[w].host == host && added.worktrees[w].online == online
              && !added.worktrees[w].busy && added.worktrees[w].session.None?
  {
  }

  /** Whether a freed worktree stays online follows the latest news of its host. */
  lemma PresenceEffect(st: State, host: string, other: string, drain: bool)
    requires other != host
    ensures host !in Step(st, ConnectHost(host)).disconnected
    ensures host in Step(st, DrainHost(host, drain)).draining <==> drain
    ensures forall a :: a in {ConnectHost(host), DrainHost(host, drain)} ==>
              && Step(st, a) == st.(draining := Step(st, a).draining, disconnected := Step(st, a).disconnected)
              && (Present(Step(st, a), other) <==> Present(st, other))
  {
  }
}
