/** Draining and resuming a host against storage (services/api/src/control-plane-agents.ts). */
module HostDrain {
  import opened Options

  /** A worktree row; the stamp is the connection it was last published or assigned under. */
  datatype Row = Row(online: bool, busy: bool, stamp: Option<string>)

  /** A released lease keeps its connection but loses the drain flag. */
  datatype Host = Host(conn: string, connected: bool, draining: bool, rows: map<string, Row>)

  /** The drain or resume in progress, between two storage calls. */
  datatype Op =
    | NoOp
    | DrainListing(owner: string)
    | DrainRows(owner: string, todo: set<string>)
    | ResumeListing(owner: string)
    | ResumeRows(owner: string, todo: set<string>)

  datatype World = World(host: Host, op: Op)

  /**
   * `Free` releases a session, possibly taking its row offline; `TakeOver` is a registration that completes and
   * holds some idle rows offline; `Rewrite` is any other writer of a row, such as an inventory write from a
   * stale cache or a disconnect taking rows offline.
   */
  datatype Action =
    | StartDrain(owner: string)
    | StartResume(owner: string)
    | List(stale: set<string>)
    | Write(id: string)
    | Finish
    | Stop
    | Assign(id: string)
    | Free(id: string, offline: bool)
    | TakeOver(conn: string, draining: bool, held: set<string>)
    | Disconnect(conn: string)
    | Rewrite(id: string, row: Row)
    | Remove(id: string)

  function IdleRows(h: Host): set<string> { set id | id in h.rows && !h.rows[id].busy }

  function IdleOffline(h: Host): set<string> { set id | id in h.rows && !h.rows[id].busy && !h.rows[id].online }

  /** The drain flag as a reader sees it: a released lease hides it. */
  predicate Clear(h: Host) { h.connected && !h.draining }

  /** The fence of a row write: the connection holds the lease, and the row exists with no stamp or with its own. */
  predicate CanWrite(h: Host, owner: string, id: string) { h.conn == owner && id in h.rows && Fits(h.rows[id], owner) }

  predicate Fits(row: Row, owner: string) { row.stamp.None? || row.stamp == Some(owner) }

  function SetOnline(h: Host, id: string, online: bool): Host
    requires id in h.rows
  {
    h.(rows := h.rows[id := h.rows[id].(online := online)])
  }

  /** A registration that completes: it decides the drain flag and the state of every idle row. */
  function Republish(h: Host, conn: string, draining: bool, held: set<string>): Host {
    Host(conn, true, draining,
         map id | id in h.rows :: if h.rows[id].busy then h.rows[id] else Row(!draining && id !in held, false, Some(conn)))
  }

  /** One storage call of the operation; a call whose fence fails ends the operation. */
  function OpStep(w: World, a: Action): World {
    var h := w.host;
    match a
    case StartDrain(owner) =>
      if w.op.NoOp? && h.conn == owner then World(h.(draining := true), DrainListing(owner)) else w
    case StartResume(owner) =>
      if w.op.NoOp? && h.connected && h.draining then w.(op := ResumeListing(owner)) else w
    case List(stale) =>
      if w.op.DrainListing? then w.(op := DrainRows(w.op.owner, IdleRows(h) + (stale - h.rows.Keys)))
      else if w.op.ResumeListing? then w.(op := ResumeRows(w.op.owner, IdleOffline(h) + (stale - h.rows.Keys)))
      else w
    case Write(id) =>
      if !(w.op.DrainRows? || w.op.ResumeRows?) || id !in w.op.todo then w
      else if !CanWrite(h, w.op.owner, id) then w.(op := NoOp)
      else World(SetOnline(h, id, w.op.ResumeRows?), w.op.(todo := w.op.todo - {id}))
    case Finish =>
      if w.op.DrainRows? && w.op.todo == {} then w.(op := NoOp)
      else if w.op.ResumeRows? && w.op.todo == {} then
        World(if h.conn == w.op.owner then h.(draining := false) else h, NoOp)
      else w
    case _ => w.(op := NoOp)
  }

  predicate IsOp(a: Action) {
    a.StartDrain? || a.StartResume? || a.List? || a.Write? || a.Finish? || a.Stop?
  }

  predicate CanTakeOver(w: World, conn: string) { conn != w.host.conn && (w.op.NoOp? || w.op.owner != conn) }

  function Outside(w: World, a: Action): World {
    var h := w.host;
    match a
    case Assign(id) =>
      if Clear(h) && id in h.rows && h.rows[id].online && !h.rows[id].busy then
        w.(host := h.(rows := h.rows[id := Row(true, true, Some(h.conn))]))
      else w
    case Free(id, offline) =>
      if id in h.rows && h.rows[id].busy then
        w.(host := h.(rows := h.rows[id := h.rows[id].(online := h.rows[id].online && !offline, busy := false)]))
      else w
    case TakeOver(conn, draining, held) =>
      if CanTakeOver(w, conn) then w.(host := Republish(h, conn, draining, held)) else w
    case Disconnect(conn) => if h.conn == conn then w.(host := h.(connected := false, draining := false)) else w
    case Rewrite(id, row) => w.(host := h.(rows := h.rows[id := row]))
    case Remove(id) => w.(host := h.(rows := h.rows - {id}))
    case _ => w
  }

  function Do(w: World, a: Action): World {
    if IsOp(a) then OpStep(w, a) else Outside(w, a)
  }

  function Run(w: World, acts: seq<Action>): World {
    if acts == [] then w else Do(Run(w, acts[..|acts| - 1]), acts[|acts| - 1])
  }

  // Which idle rows a history leaves offline, whatever drains and resumes it contains

  /**
   * The rows in `left` after one more action. A registration that clears the flag leaves the idle rows it holds; a release leaves its
   * row if it takes it offline or finds it so; another writer leaves the row it writes idle and offline. A resume
   * of the lease holder takes back everything when it lists the rows, and later each row that it writes.
   * Draining leaves nothing.
   */
  ghost function Leaves(w: World, left: set<string>, a: Action): set<string> {
    var h := w.host;
    match a
    case List(_) => if w.op.ResumeListing? && w.op.owner == h.conn then {} else left
    case Write(id) =>
      if w.op.ResumeRows? && id in w.op.todo && CanWrite(h, w.op.owner, id) then left - {id} else left
    case Free(id, offline) =>
      if id !in h.rows || !h.rows[id].busy then left
      else if offline || !h.rows[id].online then left + {id} else left - {id}
    case TakeOver(conn, draining, held) => if !CanTakeOver(w, conn) then left else if draining then {} else held * IdleRows(h)
    case Rewrite(id, row) => if !row.busy && !row.online then left + {id} else left - {id}
    case Remove(id) => left - {id}
    case _ => left
  }

  /** Before any action these are the rows that were offline to begin with. */
  ghost function Left(host: Host, acts: seq<Action>): set<string> {
    if acts == [] then IdleOffline(host)
    else
      var init := acts[..|acts| - 1];
      Leaves(Run(World(host, NoOp), init), Left(host, init), acts[|acts| - 1])
  }

  ghost predicate OpOk(h: Host, op: Op, left: set<string>) {
    (op.NoOp? || !h.connected || h.conn != op.owner || h.draining)
    && (op.ResumeRows? && h.connected && h.conn == op.owner ==>
          forall id :: id in h.rows && !h.rows[id].busy ==>
            && (id in left ==> !h.rows[id].online)
            && (!h.rows[id].online ==> id in left || id in op.todo))
  }

  ghost predicate Exact(h: Host, left: set<string>) {
    forall id :: id in h.rows && !h.rows[id].busy ==> (!h.rows[id].online <==> id in left)
  }

  ghost predicate Inv(w: World, left: set<string>) {
    (Clear(w.host) ==> Exact(w.host, left)) && OpOk(w.host, w.op, left)
  }

  lemma OpKeepsInv(w: World, left: set<string>, a: Action)
    requires Inv(w, left) && IsOp(a)
    ensures Inv(OpStep(w, a), Leaves(w, left, a))
  {
  }

  lemma OutsideKeepsInv(w: World, left: set<string>, a: Action)
    requires Inv(w, left) && !IsOp(a)
    ensures Inv(Outside(w, a), Leaves(w, left, a))
  {
  }

  lemma {:induction false} RunKeepsInv(host: Host, acts: seq<Action>)
    ensures Inv(Run(World(host, NoOp), acts), Left(host, acts))
  {
    if acts != [] {
      var init, a := acts[..|acts| - 1], acts[|acts| - 1];
      var before, left := Run(World(host, NoOp), init), Left(host, init);
      RunKeepsInv(host, init);
      if IsOp(a) { OpKeepsInv(before, left, a); } else { OutsideKeepsInv(before, left, a); }
    }
  }

  /**
   * Whatever drains and resumes ran, stopped half way, lost their fence or were retried, and whatever else wrote
   * the rows: while the drain flag is clear, an idle worktree is offline exactly when the history left it so.
   */
  lemma OfflineExactlyIfLeft(host: Host, acts: seq<Action>, id: string)
    requires var h := Run(World(host, NoOp), acts).host; Clear(h) && id in h.rows && !h.rows[id].busy
    ensures !Run(World(host, NoOp), acts).host.rows[id].online <==> id in Left(host, acts)
  {
    RunKeepsInv(host, acts);
  }

  /** An action that leaves no row offline. */
  ghost predicate Plain(w: World, a: Action) {
    match a
    case Free(id, offline) => id in w.host.rows && w.host.rows[id].busy ==> !offline && w.host.rows[id].online
    case TakeOver(_, draining, held) => draining || held * IdleRows(w.host) == {}
    case Rewrite(_, row) => row.busy || row.online
    case _ => true
  }

  ghost predicate PlainRun(host: Host, acts: seq<Action>, from: nat)
    requires from <= |acts|
  {
    forall k :: from <= k < |acts| ==> Plain(Run(World(host, NoOp), acts[..k]), acts[k])
  }

  lemma {:induction false} PlainLeavesNothing(host: Host, acts: seq<Action>, from: nat)
    requires from <= |acts| && PlainRun(host, acts, from) && Left(host, acts[..from]) == {}
    ensures Left(host, acts) == {}
  {
    if from == |acts| {
      assert acts[..from] == acts;
    } else {
      var n := |acts| - 1;
      var init := acts[..n];
      assert init[..from] == acts[..from];
      forall k | from <= k < |init|
        ensures Plain(Run(World(host, NoOp), init[..k]), init[k])
      {
        assert init[..k] == acts[..k];
      }
      PlainLeavesNothing(host, init, from);
      assert Plain(Run(World(host, NoOp), acts[..n]), acts[n]);
    }
  }

  /** With only the idle rows online at first, and plain actions, a clear flag means no idle worktree is offline. */
  lemma ClearMeansOnline(host: Host, acts: seq<Action>, id: string)
    requires IdleOffline(host) == {} && PlainRun(host, acts, 0)
    requires var h := Run(World(host, NoOp), acts).host; Clear(h) && id in h.rows && !h.rows[id].busy
    ensures Run(World(host, NoOp), acts).host.rows[id].online
  {
    hide Run;
    assert acts[..0] == [];
    PlainLeavesNothing(host, acts, 0);
    OfflineExactlyIfLeft(host, acts, id);
  }

  /**
   * A resume that finishes undoes whatever any history left offline: once it has listed the rows under its lease,
   * and if only plain actions follow, a clear flag again means that no idle worktree is offline.
   */
  lemma ResumeClearsLeft(host: Host, acts: seq<Action>, n: nat, id: string)
    requires n < |acts| && acts[n].List? && PlainRun(host, acts, n + 1)
    requires var w := Run(World(host, NoOp), acts[..n]); w.op == ResumeListing(w.host.conn)
    requires var h := Run(World(host, NoOp), acts).host; Clear(h) && id in h.rows && !h.rows[id].busy
    ensures Run(World(host, NoOp), acts).host.rows[id].online
  {
    hide Run;
    assert acts[..n + 1][..n] == acts[..n];
    assert Left(host, acts[..n + 1]) == {};
    PlainLeavesNothing(host, acts, n + 1);
    OfflineExactlyIfLeft(host, acts, id);
  }

  /** A registration that holds a row leaves it idle and offline with the flag clear; nothing drained it. */
  lemma RegistrationHolds(host: Host, conn: string, id: string)
    requires conn != host.conn && id in host.rows && !host.rows[id].busy
    ensures var h := Run(World(host, NoOp), [TakeOver(conn, false, {id})]).host;
            Clear(h) && id in h.rows && h.rows[id] == Row(false, false, Some(conn))
  {
    RunOne(World(host, NoOp), [], TakeOver(conn, false, {id}));
    assert [] + [TakeOver(conn, false, {id})] == [TakeOver(conn, false, {id})];
  }

  /** A session released offline after a resume listed its rows is not among them; the flag is cleared all the same. */
  lemma ReleaseDuringResume(owner: string, id: string)
    ensures var host := Host(owner, true, false, map[id := Row(true, true, Some(owner))]);
            var acts := [StartDrain(owner), List({}), Finish, StartResume(owner), List({}), Free(id, true), Finish];
            var h := Run(World(host, NoOp), acts).host;
            Clear(h) && id in h.rows && h.rows[id] == Row(false, false, Some(owner))
  {
    hide Run;
    var rows := map[id := Row(true, true, Some(owner))];
    var w0 := World(Host(owner, true, false, rows), NoOp);
    var drained := Host(owner, true, true, rows);
    var a1, a2, a3, a4, a5, a6, a7 :=
      StartDrain(owner), List({}), Finish, StartResume(owner), List({}), Free(id, true), Finish;
    assert Do(w0, a1) == World(drained, DrainListing(owner));
    assert IdleRows(drained) + ({} - rows.Keys) == {};
    assert Do(World(drained, DrainListing(owner)), a2) == World(drained, DrainRows(owner, {}));
    assert Do(World(drained, DrainRows(owner, {})), a3) == World(drained, NoOp);
    assert Do(World(drained, NoOp), a4) == World(drained, ResumeListing(owner));
    assert IdleOffline(drained) + ({} - rows.Keys) == {};
    assert Do(World(drained, ResumeListing(owner)), a5) == World(drained, ResumeRows(owner, {}));
    var freed := Host(owner, true, true, map[id := Row(false, false, Some(owner))]);
    assert Do(World(drained, ResumeRows(owner, {})), a6) == World(freed, ResumeRows(owner, {}));
    assert Do(World(freed, ResumeRows(owner, {})), a7) == World(freed.(draining := false), NoOp);
    RunOne(w0, [], a1);
    RunOne(w0, [] + [a1], a2);
    RunOne(w0, [] + [a1] + [a2], a3);
    RunOne(w0, [] + [a1] + [a2] + [a3], a4);
    RunOne(w0, [] + [a1] + [a2] + [a3] + [a4], a5);
    RunOne(w0, [] + [a1] + [a2] + [a3] + [a4] + [a5], a6);
    RunOne(w0, [] + [a1] + [a2] + [a3] + [a4] + [a5] + [a6], a7);
    assert [] + [a1] + [a2] + [a3] + [a4] + [a5] + [a6] + [a7] == [a1, a2, a3, a4, a5, a6, a7];
  }

  lemma RunOne(w: World, acts: seq<Action>, a: Action)
    ensures acts == [] ==> Run(w, acts) == w
    ensures Run(w, acts + [a]) == Do(Run(w, acts), a)
  {
    assert (acts + [a])[..|acts|] == acts;
  }

  // What draining is for: while the flag is set, nothing is assigned

  /** An assignment takes exactly an idle online row of a host whose flag is clear, and stamps it. */
  lemma AssignEffect(w: World, id: string)
    ensures var h, next := w.host, Do(w, Assign(id));
            if h.connected && !h.draining && id in h.rows && h.rows[id].online && !h.rows[id].busy then
              && next.op == w.op && next.host == h.(rows := next.host.rows) && next.host.rows.Keys == h.rows.Keys
              && next.host.rows[id].busy && next.host.rows[id].online && next.host.rows[id].stamp == Some(h.conn)
              && forall k :: k in h.rows && k != id ==> next.host.rows[k] == h.rows[k]
            else next == w
  {
  }

  /** Only the lease's own connection can be disconnected; the lock keeps it, without the flag. */
  lemma DisconnectEffect(w: World, conn: string)
    ensures Do(w, Disconnect(conn)) == if conn == w.host.conn then World(Host(conn, false, false, w.host.rows), w.op) else w
  {
  }

  /** A drain starts only for the lease's own connection and sets the flag; a resume starts only on a marked host. Either may stop anywhere. */
  lemma StartEffect(w: World, owner: string)
    ensures Do(w, StartDrain(owner)) == if w.op.NoOp? && owner == w.host.conn then World(w.host.(draining := true), DrainListing(owner)) else w
    ensures Do(w, StartResume(owner)) == if w.op.NoOp? && w.host.connected && w.host.draining then World(w.host, ResumeListing(owner)) else w
    ensures Do(w, Stop) == World(w.host, NoOp)
  {
  }

  /** The flag is lost only to a resume of the lease holder that has nothing left to write, to a registration, or to a disconnect. */
  lemma FlagLostOnlyTo(w: World, a: Action)
    requires Marked(w.host) && !Marked(Do(w, a).host)
    ensures || (a.Finish? && w.op == ResumeRows(w.host.conn, {}))
            || (a.TakeOver? && a.conn != w.host.conn && !a.draining)
            || a == Disconnect(w.host.conn)
  {
  }

  /** An action after which the flag may be gone, or which writes the row outside of draining, resuming and assigning. */
  predicate Reopens(a: Action, conn: string, id: string) {
    a.StartResume? || a.TakeOver? || a == Disconnect(conn) || (a.Rewrite? && a.id == id)
  }

  lemma DrainExcludesStep(w: World, a: Action, id: string)
    requires Marked(w.host) && !w.op.ResumeListing? && !w.op.ResumeRows? && !Reopens(a, w.host.conn, id)
    requires id in w.host.rows ==> !w.host.rows[id].busy
    ensures var next := Do(w, a);
            && Marked(next.host) && next.host.conn == w.host.conn && !next.op.ResumeListing? && !next.op.ResumeRows?
            && (id in next.host.rows ==> !next.host.rows[id].busy)
  {
  }

  /** Whatever happens short of a resume, a registration or a disconnect: a drained host gets no new work. */
  lemma {:induction false} DrainExcludes(w: World, acts: seq<Action>, id: string)
    requires Marked(w.host) && !w.op.ResumeListing? && !w.op.ResumeRows?
    requires forall i :: 0 <= i < |acts| ==> !Reopens(acts[i], w.host.conn, id)
    requires id in w.host.rows ==> !w.host.rows[id].busy
    ensures var next := Run(w, acts);
            && Marked(next.host) && next.host.conn == w.host.conn && !next.op.ResumeListing? && !next.op.ResumeRows?
            && (id in next.host.rows ==> !next.host.rows[id].busy)
  {
    hide Do;
    if acts != [] {
      DrainExcludes(w, acts[..|acts| - 1], id);
      DrainExcludesStep(Run(w, acts[..|acts| - 1]), acts[|acts| - 1], id);
    }
  }

  // Undisturbed, the two operations do what they say

  function Writes(ids: seq<string>): seq<Action> { seq(|ids|, i requires 0 <= i < |ids| => Write(ids[i])) }

  ghost predicate Lists(ids: seq<string>, rows: set<string>) {
    (forall i, j :: 0 <= i < j < |ids| ==> ids[i] != ids[j]) && (forall id :: id in ids <==> id in rows)
  }

  /** No listed row belongs to another connection. */
  ghost predicate Unclaimed(h: Host, ids: seq<string>, owner: string) {
    forall id :: id in ids ==> id in h.rows && (h.rows[id].stamp.None? || h.rows[id].stamp.value == owner)
  }

  function WithRows(h: Host, ids: set<string>, online: bool): Host {
    h.(rows := map id | id in h.rows :: if id in ids then h.rows[id].(online := online) else h.rows[id])
  }

  lemma RunConcat(w: World, a: seq<Action>, b: seq<Action>)
    ensures Run(w, a + b) == Run(Run(w, a), b)
    decreases b
  {
    if b == [] {
      assert a + b == a;
    } else {
      assert (a + b)[..|a + b| - 1] == a + b[..|b| - 1];
      RunConcat(w, a, b[..|b| - 1]);
    }
  }

  function Written(w: World, id: string): World
    requires (w.op.DrainRows? || w.op.ResumeRows?) && id in w.host.rows
  {
    World(SetOnline(w.host, id, w.op.ResumeRows?), w.op.(todo := w.op.todo - {id}))
  }

  lemma WriteFirst(w: World, ids: seq<string>)
    requires (w.op.DrainRows? || w.op.ResumeRows?) && ids != [] && Lists(ids, w.op.todo) && w.host.conn == w.op.owner
    requires Unclaimed(w.host, ids, w.op.owner)
    ensures ids[0] in w.host.rows && Do(w, Write(ids[0])) == Written(w, ids[0])
    ensures var next := Written(w, ids[0]); Lists(ids[1..], next.op.todo) && Unclaimed(next.host, ids[1..], w.op.owner)
  {
    assert ids == [ids[0]] + ids[1..];
  }

  lemma RestOfRows(h: Host, ids: set<string>, id: string, online: bool)
    requires id in ids && id in h.rows
    ensures WithRows(SetOnline(h, id, online), ids - {id}, online) == WithRows(h, ids, online)
  {
    assert WithRows(SetOnline(h, id, online), ids - {id}, online).rows == WithRows(h, ids, online).rows;
  }

  lemma {:induction false} WritesRun(w: World, ids: seq<string>)
    requires (w.op.DrainRows? || w.op.ResumeRows?) && Lists(ids, w.op.todo) && w.host.conn == w.op.owner
    requires Unclaimed(w.host, ids, w.op.owner)
    ensures Run(w, Writes(ids)) == World(WithRows(w.host, w.op.todo, w.op.ResumeRows?), w.op.(todo := {}))
    decreases |ids|
  {
    if ids == [] {
      assert w.op.todo == {};
      assert WithRows(w.host, {}, w.op.ResumeRows?).rows == w.host.rows;
    } else {
      hide Do, Run, Lists, Unclaimed, WithRows;
      var id, rest := ids[0], ids[1..];
      assert id in w.op.todo by { FirstIsListed(ids, w.op.todo); }
      WriteFirst(w, ids);
      WritesRun(Written(w, id), rest);
      assert Writes(ids) == [] + [Write(id)] + Writes(rest);
      RunOne(w, [], Write(id));
      RunConcat(w, [] + [Write(id)], Writes(rest));
      RestOfRows(w.host, w.op.todo, id, w.op.ResumeRows?);
    }
  }

  lemma FirstIsListed(ids: seq<string>, rows: set<string>)
    requires ids != [] && Lists(ids, rows)
    ensures ids[0] in rows
  {
    assert ids[0] in ids;
  }

  lemma Bracketed(w: World, a: Action, b: Action, ids: seq<string>, c: Action)
    ensures Run(w, [a, b] + Writes(ids) + [c]) == Do(Run(Do(Do(w, a), b), Writes(ids)), c)
  {
    hide Do;
    RunOne(w, [], a);
    RunOne(w, [] + [a], b);
    assert [] + [a] + [b] == [a, b];
    RunConcat(w, [a, b], Writes(ids));
    RunOne(w, [a, b] + Writes(ids), c);
  }

  /** A drain that is left alone sets the flag and takes every idle row offline, in whatever order it visits them. */
  lemma UndisturbedDrain(h: Host, ids: seq<string>)
    requires Lists(ids, IdleRows(h)) && Unclaimed(h, ids, h.conn)
    ensures Run(World(h, NoOp), [StartDrain(h.conn), List({})] + Writes(ids) + [Finish]) == World(Drained(h), NoOp)
  {
    hide Run, Do;
    var w := World(h, NoOp);
    Bracketed(w, StartDrain(h.conn), List({}), ids, Finish);
    var marked := h.(draining := true);
    var listed := World(marked, DrainRows(h.conn, IdleRows(h)));
    assert Do(Do(w, StartDrain(h.conn)), List({})) == listed by { Started(h); }
    WritesRun(listed, ids);
    assert WithRows(marked, IdleRows(h), false).rows == Drained(h).rows;
    Finished(Drained(h), DrainRows(h.conn, {}));
  }

  lemma Started(h: Host)
    ensures Do(Do(World(h, NoOp), StartDrain(h.conn)), List({})) == World(h.(draining := true), DrainRows(h.conn, IdleRows(h)))
    ensures Marked(h) ==> Do(Do(World(h, NoOp), StartResume(h.conn)), List({})) == World(h, ResumeRows(h.conn, IdleOffline(h)))
  {
    assert IdleRows(h.(draining := true)) + ({} - h.rows.Keys) == IdleRows(h);
    assert IdleOffline(h) + ({} - h.rows.Keys) == IdleOffline(h);
  }

  lemma Finished(h: Host, op: Op)
    requires op == DrainRows(h.conn, {}) || op == ResumeRows(h.conn, {})
    ensures Do(World(h, op), Finish) == World(if op.ResumeRows? then h.(draining := false) else h, NoOp)
  {
  }

  /** A resume that is left alone brings every idle row online and clears the flag. */
  lemma UndisturbedResume(h: Host, ids: seq<string>)
    requires Marked(h) && Lists(ids, IdleOffline(h)) && Unclaimed(h, ids, h.conn)
    ensures Run(World(h, NoOp), [StartResume(h.conn), List({})] + Writes(ids) + [Finish]) == World(Resumed(h), NoOp)
  {
    hide Run, Do;
    var w := World(h, NoOp);
    Bracketed(w, StartResume(h.conn), List({}), ids, Finish);
    var listed := World(h, ResumeRows(h.conn, IdleOffline(h)));
    Started(h);
    WritesRun(listed, ids);
    var back := WithRows(h, IdleOffline(h), true);
    assert back.rows == Resumed(h).rows;
    Finished(back, ResumeRows(h.conn, {}));
  }

  /** A row that belongs to another connection, or is gone, stops the operation; the flag stays as it is. */
  lemma ForeignRowStops(w: World, id: string)
    requires (w.op.DrainRows? || w.op.ResumeRows?) && id in w.op.todo
    requires id !in w.host.rows || w.host.conn != w.op.owner || (w.host.rows[id].stamp.Some? && w.host.rows[id].stamp.value != w.op.owner)
    ensures Do(w, Write(id)) == World(w.host, NoOp)
  {
  }

  // The operations themselves, with storage calls that may stop working at any point

  /** The flag is set on a live lease. */
  predicate Marked(h: Host) { h.connected && h.draining }

  class HostStore {
    var host: Host
    /** How many more storage calls will get through. */
    var calls: nat

    /** The fenced row write; it also fails when storage does. */
    method SetWorktreeOnlineFenced(id: string, owner: string, online: bool) returns (ok: bool)
      modifies this
      ensures ok <==> && old(calls) > 0 && old(host).conn == owner && id in old(host).rows
                      && (old(host).rows[id].stamp.None? || old(host).rows[id].stamp.value == owner)
      ensures host == if ok then SetOnline(old(host), id, online) else old(host)
      ensures calls == if old(calls) > 0 then old(calls) - 1 else 0
    {
      ok := calls > 0 && CanWrite(host, owner, id);
      if ok {
        host := host.(rows := host.rows[id := host.rows[id].(online := online)]);
      }
      calls := if calls > 0 then calls - 1 else 0;
    }

    method MarkHostDraining(owner: string) returns (ok: bool)
      modifies this
      ensures ok == (old(calls) > 0 && old(host).conn == owner)
      ensures host == if ok then old(host).(draining := true) else old(host)
      ensures calls == if old(calls) > 0 then old(calls) - 1 else 0
    {
      ok := calls > 0 && host.conn == owner;
      if ok {
        host := host.(draining := true);
      }
      calls := if calls > 0 then calls - 1 else 0;
    }

    method ClearHostDraining(owner: string) returns (ok: bool)
      modifies this
      ensures ok == (old(calls) > 0 && old(host).conn == owner)
      ensures host == if ok then old(host).(draining := false) else old(host)
      ensures calls == if old(calls) > 0 then old(calls) - 1 else 0
    {
      ok := calls > 0 && host.conn == owner;
      if ok {
        host := host.(draining := false);
      }
      calls := if calls > 0 then calls - 1 else 0;
    }

    /** The restrictive flag goes first: however far the drain gets, the host is excluded from then on. */
    method Drain(owner: string) returns (ok: bool)
      modifies this
      ensures ok <==> old(host).conn == owner && old(calls) > |IdleRows(old(host))|
                      && (forall id :: id in IdleRows(old(host)) && old(host).rows[id].stamp.Some? ==> old(host).rows[id].stamp.value == owner)
      ensures ok ==> host == Drained(old(host))
      ensures host.conn == old(host).conn && host.connected == old(host).connected && host.rows.Keys == old(host).rows.Keys
      ensures host == old(host) || host.draining
      ensures forall id :: id in host.rows ==> host.rows[id] == old(host).rows[id] || host.rows[id] == Drained(old(host)).rows[id]
    {
      var marked := MarkHostDraining(owner);
      if !marked {
        return false;
      }
      var todo := IdleRows(host);
      ghost var before := host;
      assert IdleRows(host) == IdleRows(old(host));
      while todo != {}
        invariant todo <= IdleRows(before) && host.conn == owner && host.connected == before.connected && host.draining && host.rows.Keys == before.rows.Keys
        invariant calls + |IdleRows(before)| + 1 == old(calls) + |todo|
        invariant forall id :: id in IdleRows(before) - todo ==> Fits(before.rows[id], owner)
        invariant forall id :: id in before.rows ==>
                    host.rows[id] == if id in IdleRows(before) - todo then before.rows[id].(online := false) else before.rows[id]
        decreases todo
      {
        assert (forall x :: x !in todo) ==> todo == {};
        var id :| id in todo;
        var written := SetWorktreeOnlineFenced(id, owner, false);
        if !written {
          SmallerSet(todo, IdleRows(before));
          return false;
        }
        todo := todo - {id};
      }
      AllDrained(before, host.rows);
      assert Drained(before) == Drained(old(host));
      return true;
    }

    /**
     * The permissive flag goes last: a resume that fails leaves the host draining, and one that gets all its
     * calls through ends with every idle worktree online and the flag clear.
     */
    method Resume(owner: string) returns (ok: bool)
      modifies this
      ensures Marked(old(host)) ==>
                (ok <==> old(host).conn == owner && old(calls) > |IdleOffline(old(host))|
                         && (forall id :: id in IdleOffline(old(host)) && old(host).rows[id].stamp.Some? ==> old(host).rows[id].stamp.value == owner))
      ensures Marked(old(host)) && ok ==> host == Resumed(old(host)) && IdleOffline(host) == {}
      ensures Marked(old(host)) && !ok ==> Marked(host)
      ensures !Marked(old(host)) ==> ok && host == old(host)
      ensures host.conn == old(host).conn && host.connected == old(host).connected && host.rows.Keys == old(host).rows.Keys
      ensures forall id :: id in host.rows ==> host.rows[id] == old(host).rows[id] || host.rows[id] == Resumed(old(host)).rows[id]
    {
      if !Marked(host) {
        return true;
      }
      var todo := IdleOffline(host);
      while todo != {}
        invariant todo <= IdleOffline(old(host)) && Marked(host) && host.conn == old(host).conn
        invariant host.rows.Keys == old(host).rows.Keys
        invariant todo == IdleOffline(old(host)) || host.conn == owner
        invariant calls + |IdleOffline(old(host))| == old(calls) + |todo|
        invariant forall id :: id in IdleOffline(old(host)) - todo ==> Fits(old(host).rows[id], owner)
        invariant forall id :: id in host.rows ==>
                    host.rows[id] == if id in IdleOffline(old(host)) - todo then old(host).rows[id].(online := true) else old(host).rows[id]
        decreases todo
      {
        assert (forall x :: x !in todo) ==> todo == {};
        var id :| id in todo;
        var written := SetWorktreeOnlineFenced(id, owner, true);
        if !written {
          SmallerSet(todo, IdleOffline(old(host)));
          return false;
        }
        todo := todo - {id};
      }
      AllResumed(old(host), host.rows);
      ok := ClearHostDraining(owner);
    }
  }

  lemma AllDrained(h: Host, rows: map<string, Row>)
    requires rows.Keys == h.rows.Keys
    requires forall id :: id in h.rows ==> rows[id] == if id in IdleRows(h) then h.rows[id].(online := false) else h.rows[id]
    ensures rows == Drained(h).rows
  {
    forall id | id in h.rows
      ensures rows[id] == Drained(h).rows[id]
    {
    }
  }

  lemma AllResumed(h: Host, rows: map<string, Row>)
    requires rows.Keys == h.rows.Keys
    requires forall id :: id in rows ==> rows[id] == if id in IdleOffline(h) then h.rows[id].(online := true) else h.rows[id]
    ensures rows == Resumed(h).rows
  {
    forall id | id in h.rows
      ensures rows[id] == Resumed(h).rows[id]
    {
      assert h.rows[id].online ==> h.rows[id] == h.rows[id].(online := true);
    }
  }

  lemma SmallerSet(some: set<string>, all: set<string>)
    requires some <= all
    ensures |some| <= |all|
  {
    if some != all {
      assert all == some + (all - some);
    }
  }

  function Drained(h: Host): Host {
    Host(h.conn, h.connected, true, map id | id in h.rows :: if h.rows[id].busy then h.rows[id] else h.rows[id].(online := false))
  }

  function Resumed(h: Host): Host {
    Host(h.conn, h.connected, false, map id | id in h.rows :: if h.rows[id].busy then h.rows[id] else h.rows[id].(online := true))
  }

  /** Resuming undoes draining when every worktree was online and the host was not draining. */
  lemma ResumeUndoesDrain(h: Host)
    requires forall id :: id in h.rows ==> h.rows[id].online
    ensures Resumed(Drained(h)) == h.(draining := false)
  {
    var r := Resumed(Drained(h));
    assert r.rows.Keys == h.rows.Keys;
    assert forall id :: id in h.rows ==> r.rows[id] == h.rows[id];
  }
}
