/**
 Archive retry fencing without durable storage (services/api/src/control-plane-archive.ts,
 control-plane-archive-expire.ts and control-plane-archive-replace.ts): several workers and readers
 act on one archive record, and may interleave wherever the source awaits.
 */
module Archive {
  import opened Options

  datatype Status = Pending | Complete | Expired

  datatype RetryState = NoRetry | Queued | Processing

  /** Archive metadata. Retry orders are tokens; the source builds them from the clock and the key. */
  datatype Meta = Meta(
    status: Status,
    objectStored: bool,
    bodyBytes: nat,
    retryState: RetryState,
    retryOrder: Option<int>,
    capturedOrder: Option<int>,
    updatedAt: int,
    versionId: Option<int>)

  const RETENTION_MS: int := 7 * 24 * 60 * 60 * 1000

  predicate StoredComplete(m: Option<Meta>) {
    m.Some? && m.value.status.Complete? && m.value.objectStored
  }

  predicate IsExpired(m: Option<Meta>) { m.Some? && m.value.status.Expired? }

  /** The current retry has bytes in hand and is about to upload them. */
  predicate CapturedCurrent(m: Meta) {
    m.retryState.Processing? && m.bodyBytes > 0 && m.capturedOrder == m.retryOrder
  }

  predicate Owns(m: Option<Meta>, order: int) {
    m.Some? && !m.value.status.Expired? && m.value.retryState.Processing? && m.value.retryOrder == Some(order)
  }

  predicate BlocksEmptyExpiry(m: Option<Meta>, order: int) {
    || m.None?
    || m.value.status.Expired?
    || !m.value.retryState.Processing?
    || m.value.retryOrder != Some(order)
    || (m.value.bodyBytes > 0 && m.value.capturedOrder == m.value.retryOrder)
  }

  /** The newest known anchor, if any. */
  function Newest(anchors: seq<Option<int>>): Option<int> {
    if anchors == [] then None
    else
      var rest := Newest(anchors[1..]);
      if anchors[0].None? then rest
      else if rest.None? || rest.value < anchors[0].value then anchors[0]
      else rest
  }

  predicate RetentionElapsed(now: int, anchors: seq<Option<int>>) {
    var newest := Newest(anchors);
    newest.Some? && now >= newest.value + RETENTION_MS
  }

  /** Retention has elapsed exactly when some anchor is known and every known one is a full window old. */
  lemma {:induction false} RetentionMeaning(now: int, anchors: seq<Option<int>>)
    ensures RetentionElapsed(now, anchors) <==>
            && (exists i :: 0 <= i < |anchors| && anchors[i].Some?)
            && (forall i :: 0 <= i < |anchors| && anchors[i].Some? ==> now >= anchors[i].value + RETENTION_MS)
  {
    if anchors != [] {
      var rest := anchors[1..];
      RetentionMeaning(now, rest);
      assert forall i :: 0 <= i < |rest| ==> rest[i] == anchors[i + 1];
      if i :| 0 <= i < |anchors| && anchors[i].Some? && i > 0 {
        assert rest[i - 1].Some?;
      }
      NewestKnown(rest);
    }
  }

  lemma {:induction false} NewestKnown(anchors: seq<Option<int>>)
    ensures Newest(anchors).Some? <==> exists i :: 0 <= i < |anchors| && anchors[i].Some?
  {
    if anchors != [] {
      var rest := anchors[1..];
      NewestKnown(rest);
      assert forall i :: 0 <= i < |rest| ==> rest[i] == anchors[i + 1];
      if i :| 0 <= i < |anchors| && anchors[i].Some? && i > 0 {
        assert rest[i - 1].Some?;
      }
    }
  }

  // ---- What each uninterrupted segment does to the record. ----

  function Expire(m: Meta, now: int): Meta {
    m.(status := Expired, objectStored := false, updatedAt := now, retryState := NoRetry, retryOrder := None)
  }

  function Claim(m: Option<Meta>, seen: int, order: int): Option<Meta> {
    if m.None? || m.value.objectStored || m.value.retryOrder != Some(seen) then m
    else Some(m.value.(retryState := Processing, retryOrder := Some(order)))
  }

  function Capture(m: Option<Meta>, order: int, bytes: nat): Option<Meta> {
    if Owns(m, order) then Some(m.value.(bodyBytes := bytes, capturedOrder := Some(order))) else m
  }

  function Publish(m: Option<Meta>, order: int, bytes: nat, now: int, versionId: Option<int>): Option<Meta> {
    if Owns(m, order) then Some(Meta(Complete, true, bytes, NoRetry, None, None, now, versionId)) else m
  }

  function Release(m: Option<Meta>, order: int, next: int): Option<Meta> {
    if m.Some? && m.value.retryState.Processing? && m.value.retryOrder == Some(order) then
      Some(m.value.(retryState := Queued, retryOrder := Some(next)))
    else m
  }

  datatype ExpiryResult = WasExpired | WasComplete | StillPending

  /** `persistExpiredArchive`: `seen` is the metadata the caller read, which may be stale. */
  function PersistExpired(m: Option<Meta>, seen: Meta, now: int): (Option<Meta>, ExpiryResult) {
    if StoredComplete(Some(seen)) then (m, WasComplete)
    else if seen.status.Expired? then (Some(Expire(seen, now)), WasExpired)
    else
      var current := if m.Some? then m.value else seen;
      if StoredComplete(Some(current)) then (m, WasComplete)
      else if CapturedCurrent(seen) || CapturedCurrent(current) then (m, StillPending)
      else (Some(Expire(current, now)), WasExpired)
  }

  /** `publishCompleteArchiveReplacement`: only while the generation that was read is still the stored one. */
  function Replace(m: Option<Meta>, repaired: Meta, expectedVersion: Option<int>): Option<Meta> {
    if StoredComplete(m) && expectedVersion.Some? && m.value.versionId == expectedVersion then Some(repaired) else m
  }

  function At(archives: map<string, Meta>, key: string): Option<Meta> {
    if key in archives then Some(archives[key]) else None
  }

  function Put(archives: map<string, Meta>, key: string, m: Option<Meta>): map<string, Meta> {
    if m.Some? then archives[key := m.value] else archives
  }

  /** The in-memory archive map; each method is one segment between two awaits. */
  class ArchiveTable {
    var archives: map<string, Meta>

    constructor ()
      ensures archives == map[]
    {
      archives := map[];
    }

    method ClaimRetry(key: string, seen: int, order: int) returns (won: bool)
      modifies this
      ensures archives == Put(old(archives), key, Claim(At(old(archives), key), seen, order))
      ensures won <==> key in old(archives) && !old(archives)[key].objectStored && old(archives)[key].retryOrder == Some(seen)
      ensures won ==> Owns(At(archives, key), order) || IsExpired(At(archives, key))
      ensures !won ==> archives == old(archives)
    {
      if key !in archives {
        return false;
      }
      var current := archives[key];
      if current.objectStored || current.retryOrder != Some(seen) {
        assert archives[key := current] == archives;
        return false;
      }
      archives := archives[key := current.(retryState := Processing, retryOrder := Some(order))];
      return true;
    }

    /** With bytes in hand: note them under the retry order, unless the claim has been lost. */
    method CaptureBody(key: string, order: int, bytes: nat) returns (go: bool)
      requires bytes > 0
      modifies this
      ensures archives == Put(old(archives), key, Capture(At(old(archives), key), order, bytes))
      ensures go <==> Owns(At(old(archives), key), order)
      ensures go ==> CapturedCurrent(archives[key])
    {
      if key !in archives {
        return false;
      }
      var claimed := archives[key];
      if claimed.status.Expired? || !claimed.retryState.Processing? || claimed.retryOrder != Some(order) {
        assert archives[key := claimed] == archives;
        return false;
      }
      archives := archives[key := claimed.(bodyBytes := bytes, capturedOrder := Some(order))];
      return true;
    }

    method PublishCompletion(key: string, order: int, bytes: nat, now: int, versionId: Option<int>)
      returns (published: bool)
      modifies this
      ensures archives == Put(old(archives), key, Publish(At(old(archives), key), order, bytes, now, versionId))
      ensures published <==> Owns(At(old(archives), key), order)
      ensures published ==> StoredComplete(At(archives, key))
    {
      if key in archives {
        var claimed := archives[key];
        if !claimed.status.Expired? && claimed.retryState.Processing? && claimed.retryOrder == Some(order) {
          archives := archives[key := Meta(Complete, true, bytes, NoRetry, None, None, now, versionId)];
          return true;
        }
        assert archives[key := claimed] == archives;
      }
      return false;
    }

    method ReleaseRetry(key: string, order: int, next: int)
      modifies this
      ensures archives == Put(old(archives), key, Release(At(old(archives), key), order, next))
    {
      if key in archives {
        var current := archives[key];
        if current.retryState.Processing? && current.retryOrder == Some(order) {
          archives := archives[key := current.(retryState := Queued, retryOrder := Some(next))];
        } else {
          assert archives[key := current] == archives;
        }
      }
    }

    method PersistExpiredArchive(key: string, seen: Meta, now: int) returns (r: ExpiryResult)
      modifies this
      ensures archives == Put(old(archives), key, PersistExpired(At(old(archives), key), seen, now).0)
      ensures r == PersistExpired(At(old(archives), key), seen, now).1
      ensures r.WasExpired? ==> IsExpired(At(archives, key))
    {
      ghost var before := archives;
      assert key in archives ==> archives[key := archives[key]] == archives;
      if seen.status.Complete? && seen.objectStored {
        return WasComplete;
      }
      if seen.status.Expired? {
        archives := archives[key := Expire(seen, now)];
        return WasExpired;
      }
      if CapturedCurrent(seen) {
        var current := if key in archives then archives[key] else seen;
        return if current.status.Complete? && current.objectStored then WasComplete else StillPending;
      }
      var current := if key in archives then archives[key] else seen;
      if current.status.Complete? && current.objectStored {
        return WasComplete;
      }
      if CapturedCurrent(current) {
        return StillPending;
      }
      archives := archives[key := Expire(current, now)];
      return WasExpired;
    }

    /** One candidate of the sweep with nothing in between: claim, then capture, expire, release or publish. */
    method RetryOne(t: Attempt)
      modifies this
      ensures forall key :: key != t.key ==> At(archives, key) == At(old(archives), key)
      ensures !Claimable(At(old(archives), t.key), t.seen) ==> archives == old(archives)
      ensures Outcome(At(old(archives), t.key), At(archives, t.key), t)
    {
      if t.key !in archives || archives[t.key].status.Expired? {
        return;
      }
      var won := ClaimRetry(t.key, t.seen, t.order);
      if !won {
        return;
      }
      if t.bytes == 0 {
        if BlocksEmptyExpiry(At(archives, t.key), t.order) {
          return;
        }
        RetentionIsAWeek(t.now, archives[t.key].updatedAt, None);
        if RetentionElapsed(t.now, [Some(archives[t.key].updatedAt)]) {
          if !t.logsRemain {
            var r := PersistExpiredArchive(t.key, Meta(Pending, false, 0, Processing, Some(t.order), None, t.now, None), t.now);
          }
          return;
        }
      } else {
        var go := CaptureBody(t.key, t.order, t.bytes);
      }
      if t.upload.None? {
        ReleaseRetry(t.key, t.order, t.next);
      } else {
        var published := PublishCompletion(t.key, t.order, t.bytes, t.now, t.upload.value);
      }
    }

    /** `retryPendingArchives`: every candidate ends as its own attempt decides; no other key changes. */
    method RetryPendingArchives(ts: seq<Attempt>)
      requires forall i, j :: 0 <= i < j < |ts| ==> ts[i].key != ts[j].key
      modifies this
      ensures forall key :: (forall i :: 0 <= i < |ts| ==> ts[i].key != key) ==> At(archives, key) == At(old(archives), key)
      ensures forall i :: 0 <= i < |ts| ==> Outcome(At(old(archives), ts[i].key), At(archives, ts[i].key), ts[i])
    {
      for n := 0 to |ts|
        invariant forall key :: (forall i :: 0 <= i < n ==> ts[i].key != key) ==> At(archives, key) == At(old(archives), key)
        invariant forall i :: 0 <= i < n ==> Outcome(At(old(archives), ts[i].key), At(archives, ts[i].key), ts[i])
      {
        hide At, Claimable, Outcome;
        assert At(archives, ts[n].key) == At(old(archives), ts[n].key);
        RetryOne(ts[n]);
      }
    }
  }

  /** Seven days, in milliseconds. */
  const WEEK_MS: int := 604800000

  /** What becomes of a claimable record. A lost claim changes nothing. */
  ghost predicate Outcome(before: Option<Meta>, after: Option<Meta>, t: Attempt) {
    if !Claimable(before, t.seen) then after == before
    else
      && after.Some?
      && (if t.bytes == 0 && (CapturedAs(before.value, t.order) || (before.value.updatedAt + WEEK_MS <= t.now && t.logsRemain))
          then StillClaimed(before.value, after.value, t)
          else if t.bytes == 0 && before.value.updatedAt + WEEK_MS <= t.now then GaveUp(before.value, after.value, t)
          else if t.upload.Some? then Stored(after.value, t)
          else ToRetry(before.value, after.value, t))
  }

  /** Nothing to upload and no reason to expire yet: the claim stays, and the sweep takes it up again under its order. */
  ghost predicate StillClaimed(before: Meta, after: Meta, t: Attempt) {
    && after.status == before.status && !after.objectStored && after.updatedAt == before.updatedAt
    && after.retryState.Processing? && after.retryOrder == Some(t.order)
    && after.bodyBytes == before.bodyBytes && after.capturedOrder == before.capturedOrder
  }

  ghost predicate GaveUp(before: Meta, after: Meta, t: Attempt) {
    && after.status.Expired? && !after.objectStored && after.updatedAt == t.now
    && after.retryState.NoRetry? && after.retryOrder.None? && after.bodyBytes == before.bodyBytes
  }

  ghost predicate Stored(after: Meta, t: Attempt) {
    && after.status.Complete? && after.objectStored && after.updatedAt == t.now && after.bodyBytes == t.bytes
    && after.retryState.NoRetry? && after.retryOrder.None? && after.capturedOrder.None? && Some(after.versionId) == t.upload
  }

  /** A failed upload leaves the record as it was, queued under the next order and with any bytes noted. */
  ghost predicate ToRetry(before: Meta, after: Meta, t: Attempt) {
    && after.status == before.status && !after.objectStored && after.updatedAt == before.updatedAt
    && after.retryState.Queued? && after.retryOrder == Some(t.next)
    && (if t.bytes > 0 then after.bodyBytes == t.bytes && after.capturedOrder == Some(t.order)
        else after.bodyBytes == before.bodyBytes && after.capturedOrder == before.capturedOrder)
  }

  /** A record that the sweep may claim under the order it saw. */
  predicate Claimable(m: Option<Meta>, seen: int) {
    m.Some? && !m.value.status.Expired? && !m.value.objectStored && m.value.retryOrder == Some(seen)
  }

  predicate CapturedAs(m: Meta, order: int) { m.bodyBytes > 0 && m.capturedOrder == Some(order) }

  /** What a sweep meets for one candidate; `upload` is absent when storing the object fails. */
  datatype Attempt = Attempt(
    key: string, seen: int, order: int, bytes: nat, logsRemain: bool, upload: Option<Option<int>>, next: int, now: int)

  // ---- All interleavings of workers and readers on one record. ----

  datatype Agent =
    | Idle
    | ReadingBody(order: int)
    | CheckingLogs(order: int)
    | Uploading(order: int, bytes: nat)
    | Replacing(generation: Option<int>)
    | Deciding(seen: Meta)
    | Done

  /** `issued` holds the orders handed out so far, `holder` the agent and order of the latest successful claim. */
  datatype World = World(record: Option<Meta>, agents: map<nat, Agent>, issued: set<int>, holder: Option<(nat, int)>)

  datatype Action =
    | ClaimStep(a: nat, seen: int, order: int)
    | BodyRead(a: nat, bytes: nat, now: int)
    | LogsRead(a: nat, remain: bool, now: int)
    | Uploaded(a: nat, bytes: nat, now: int, versionId: Option<int>)
    | Failed(a: nat, next: int)
    | ReadStarted(a: nat, now: int, terminalAt: Option<int>)
    | ReplaceStarted(a: nat)

  function AgentOf(w: World, a: nat): Agent { if a in w.agents then w.agents[a] else Idle }

  function Become(w: World, a: nat, agent: Agent): World { w.(agents := w.agents[a := agent]) }

  /** Every claim and every release writes an order that was never used before. */
  predicate Allowed(w: World, act: Action) {
    match act
    case ClaimStep(_, _, order) => order !in w.issued
    case Failed(_, next) => next !in w.issued
    case _ => true
  }

  /** `retryPendingArchives` up to the first await: claim, then skip a finished record. */
  function DoClaim(w: World, a: nat, seen: int, order: int): World {
    var issued := w.issued + {order};
    if w.record.None? || w.record.value.objectStored || w.record.value.retryOrder != Some(seen) then
      Become(w, a, Done).(issued := issued)
    else
      var claimed := Claim(w.record, seen, order);
      var next := if IsExpired(claimed) || StoredComplete(claimed) then Done else ReadingBody(order);
      Become(w, a, next).(record := claimed, issued := issued, holder := Some((a, order)))
  }

  /** A worker that lost its claim repairs the winner, if the winner lacks a version id. */
  function Rewrite(w: World, a: nat): World {
    if StoredComplete(w.record) && w.record.value.versionId.None? then Become(w, a, Replacing(None))
    else Become(w, a, Done)
  }

  function DoBody(w: World, a: nat, order: int, bytes: nat, now: int): World {
    if bytes == 0 then
      if BlocksEmptyExpiry(w.record, order) then Become(w, a, Done)
      else if RetentionElapsed(now, [Some(w.record.value.updatedAt)]) then Become(w, a, CheckingLogs(order))
      else Become(w, a, Uploading(order, 0))
    else if Owns(w.record, order) then
      Become(w, a, Uploading(order, bytes)).(record := Capture(w.record, order, bytes))
    else if w.record.None? || w.record.value.status.Expired? then Become(w, a, Done)
    else Rewrite(w, a)
  }

  function DoLogs(w: World, a: nat, order: int, remain: bool, now: int): World {
    if BlocksEmptyExpiry(w.record, order) || remain then Become(w, a, Done)
    else
      var pending := Meta(Pending, false, 0, Processing, Some(order), None, now, None);
      Become(w, a, Done).(record := PersistExpired(w.record, pending, now).0)
  }

  /** `getArchiveDownloadDurable` up to its await. */
  function DoReadStart(w: World, a: nat, now: int, terminalAt: Option<int>): World {
    if w.record.None? || w.record.value.status.Expired? || w.record.value.status.Complete? then Become(w, a, Done)
    else if RetentionElapsed(now, [Some(w.record.value.updatedAt), terminalAt]) then
      Become(w, a, Deciding(w.record.value))
    else Become(w, a, Done)
  }

  function DoReadEnd(w: World, a: nat, seen: Meta, remain: bool, now: int): World {
    if remain then Become(w, a, Done)
    else Become(w, a, Done).(record := PersistExpired(w.record, seen, now).0)
  }

  /** The object is stored: publish under the claim, or replace the generation that was read. */
  function DoUploaded(w: World, a: nat, bytes: nat, now: int, versionId: Option<int>): World {
    var agent := AgentOf(w, a);
    if agent.Uploading? && Owns(w.record, agent.order) then
      Become(w, a, Done).(record := Publish(w.record, agent.order, bytes, now, versionId))
    else if agent.Uploading? then Rewrite(w, a)
    else if agent.Replacing? && versionId.Some? then
      var repaired := Meta(Complete, true, bytes, NoRetry, None, None, now, versionId);
      Become(w, a, Done).(record := Replace(w.record, repaired, agent.generation))
    else w
  }

  function Step(w: World, act: Action): World {
    var agent := AgentOf(w, act.a);
    match act
    case ClaimStep(a, seen, order) => if agent.Idle? || agent.Done? then DoClaim(w, a, seen, order) else w
    case BodyRead(a, bytes, now) => if agent.ReadingBody? then DoBody(w, a, agent.order, bytes, now) else w
    case LogsRead(a, remain, now) =>
      if agent.CheckingLogs? then DoLogs(w, a, agent.order, remain, now)
      else if agent.Deciding? then DoReadEnd(w, a, agent.seen, remain, now)
      else w
    case Uploaded(a, bytes, now, versionId) => DoUploaded(w, a, bytes, now, versionId)
    case Failed(a, next) =>
      if agent.ReadingBody? || agent.CheckingLogs? || agent.Uploading? then
        Become(w, a, Done).(record := Release(w.record, agent.order, next), issued := w.issued + {next})
      else w
    case ReadStarted(a, now, terminalAt) =>
      if agent.Idle? || agent.Done? then DoReadStart(w, a, now, terminalAt) else w
    case ReplaceStarted(a) =>
      if (agent.Idle? || agent.Done?) && StoredComplete(w.record) && w.record.value.versionId.Some? then
        Become(w, a, Replacing(w.record.value.versionId))
      else w
  }

  function Run(w: World, acts: seq<Action>): World {
    if acts == [] then w else Step(Run(w, acts[..|acts| - 1]), acts[|acts| - 1])
  }

  ghost predicate AllowedRun(w: World, acts: seq<Action>) {
    acts == [] || (AllowedRun(w, acts[..|acts| - 1]) && Allowed(Run(w, acts[..|acts| - 1]), acts[|acts| - 1]))
  }

  ghost predicate Shape(m: Meta) {
    && (m.objectStored ==> m.status.Complete? && m.retryState.NoRetry?)
    && (m.status.Expired? ==> !m.objectStored && m.retryState.NoRetry? && m.retryOrder.None?)
  }

  function OrderOf(agent: Agent): Option<int> {
    match agent
    case ReadingBody(order) => Some(order)
    case CheckingLogs(order) => Some(order)
    case Uploading(order, _) => Some(order)
    case _ => None
  }

  ghost predicate RecordOk(m: Option<Meta>, issued: set<int>) {
    m.Some? ==> Shape(m.value) && (m.value.retryOrder.Some? ==> m.value.retryOrder.value in issued)
  }

  /** An agent works under an issued order, and only the latest claimant can find the record under its order. */
  ghost predicate AgentOk(w: World, a: nat, agent: Agent) {
    && (OrderOf(agent).Some? ==>
          && OrderOf(agent).value in w.issued
          && (Owns(w.record, OrderOf(agent).value) ==> w.holder == Some((a, OrderOf(agent).value))))
    && (agent.Deciding? ==> agent.seen.status.Pending?)
  }

  ghost predicate Distinct(a: Agent, b: Agent) {
    OrderOf(a).Some? ==> OrderOf(a) != OrderOf(b)
  }

  ghost predicate Inv(w: World) {
    && RecordOk(w.record, w.issued)
    && (forall a :: a in w.agents ==> AgentOk(w, a, w.agents[a]))
    && (forall a, b :: a in w.agents && b in w.agents && a != b ==> Distinct(w.agents[a], w.agents[b]))
  }

  /** Any stored record, no activity yet. */
  ghost predicate Start(w: World) {
    w.agents == map[] && w.holder == None && RecordOk(w.record, w.issued)
  }

  /** An agent moves on, possibly to a fresh order, without handing the record to an old order. */
  lemma MoveKeepsInv(w: World, a: nat, next: World)
    requires Inv(w) && next.agents == w.agents[a := AgentOf(next, a)] && w.issued <= next.issued
    requires RecordOk(next.record, next.issued) && AgentOk(next, a, AgentOf(next, a))
    requires OrderOf(AgentOf(next, a)).None? || OrderOf(AgentOf(next, a)) == OrderOf(AgentOf(w, a)) ||
             OrderOf(AgentOf(next, a)).value !in w.issued
    requires forall o :: o in w.issued && Owns(next.record, o) ==> Owns(w.record, o) && next.holder == w.holder
    ensures Inv(next)
  {
    hide Owns, Shape;
    var agent := AgentOf(next, a);
    forall b | b in next.agents
      ensures AgentOk(next, b, next.agents[b])
    {
      if b != a {
        assert AgentOk(w, b, w.agents[b]);
      }
    }
    forall b | b in w.agents && b != a
      ensures Distinct(agent, next.agents[b]) && Distinct(next.agents[b], agent)
    {
      assert AgentOk(w, b, w.agents[b]);
      if a in w.agents {
        assert Distinct(w.agents[a], w.agents[b]) && Distinct(w.agents[b], w.agents[a]);
      }
    }
  }

  lemma ExpireKeepsShape(m: Option<Meta>, seen: Meta, now: int, issued: set<int>)
    requires RecordOk(m, issued) && !seen.status.Expired?
    ensures var r := PersistExpired(m, seen, now).0; RecordOk(r, issued) && forall o :: Owns(r, o) ==> Owns(m, o)
  {
  }

  lemma StepKeepsInv(w: World, act: Action)
    requires Inv(w) && Allowed(w, act)
    ensures Inv(Step(w, act))
  {
    var next := Step(w, act);
    var agent := AgentOf(w, act.a);
    if next != w {
      if act.a in w.agents {
        assert AgentOk(w, act.a, agent);
      }
      if act.LogsRead? {
        if agent.CheckingLogs? {
          ExpireKeepsShape(w.record, Meta(Pending, false, 0, Processing, Some(agent.order), None, act.now, None), act.now, w.issued);
        } else {
          ExpireKeepsShape(w.record, agent.seen, act.now, w.issued);
        }
        hide PersistExpired;
        MoveKeepsInv(w, act.a, next);
      } else {
        MoveKeepsInv(w, act.a, next);
      }
    }
  }

  // ---- Terminal states are final, and only the current claimant completes. ----

  lemma StepKeepsTerminal(w: World, act: Action)
    requires Inv(w)
    ensures StoredComplete(w.record) ==> StoredComplete(Step(w, act).record)
    ensures IsExpired(w.record) ==> IsExpired(Step(w, act).record)
  {
    if act.a in w.agents {
      assert AgentOk(w, act.a, AgentOf(w, act.a));
    }
  }

  /** Completion is published only by the latest claimant, and only under the order the record still carries. */
  lemma OnlyHolderPublishes(w: World, act: Action)
    requires Inv(w) && !StoredComplete(w.record) && StoredComplete(Step(w, act).record)
    ensures act.Uploaded? && AgentOf(w, act.a).Uploading?
    ensures w.record.value.retryOrder == Some(AgentOf(w, act.a).order)
    ensures w.holder == Some((act.a, AgentOf(w, act.a).order))
  {
    if act.a in w.agents {
      assert AgentOk(w, act.a, AgentOf(w, act.a));
    }
  }

  lemma {:induction false} RunKeepsInv(w: World, acts: seq<Action>)
    requires Inv(w) && AllowedRun(w, acts)
    ensures Inv(Run(w, acts))
  {
    if acts != [] {
      RunKeepsInv(w, acts[..|acts| - 1]);
      StepKeepsInv(Run(w, acts[..|acts| - 1]), acts[|acts| - 1]);
    }
  }

  lemma {:induction false} AllowedPrefix(w: World, acts: seq<Action>, i: nat)
    requires i <= |acts| && AllowedRun(w, acts)
    ensures AllowedRun(w, acts[..i])
  {
    if i < |acts| {
      AllowedPrefix(w, acts[..|acts| - 1], i);
      assert acts[..|acts| - 1][..i] == acts[..i];
    } else {
      assert acts[..i] == acts;
    }
  }

  lemma {:induction false} TerminalIsFinal(w: World, acts: seq<Action>, i: nat)
    requires Inv(w) && AllowedRun(w, acts) && i <= |acts|
    ensures StoredComplete(Run(w, acts[..i]).record) ==> StoredComplete(Run(w, acts).record)
    ensures IsExpired(Run(w, acts[..i]).record) ==> IsExpired(Run(w, acts).record)
  {
    hide Step, Inv;
    if i < |acts| {
      var init := acts[..|acts| - 1];
      TerminalIsFinal(w, init, i);
      assert init[..i] == acts[..i];
      RunKeepsInv(w, init);
      StepKeepsTerminal(Run(w, init), acts[|acts| - 1]);
    } else {
      assert acts[..i] == acts;
    }
  }

  /** Over any interleaving, no two moments find the record complete and stored at one and expired at the other. */
  lemma AtMostOneOutcome(w: World, acts: seq<Action>, i: nat, j: nat)
    requires Start(w) && AllowedRun(w, acts) && i <= |acts| && j <= |acts|
    ensures !(StoredComplete(Run(w, acts[..i]).record) && IsExpired(Run(w, acts[..j]).record))
  {
    hide Run, AllowedRun;
    TerminalIsFinal(w, acts, i);
    TerminalIsFinal(w, acts, j);
  }

  // ---- A captured upload cannot be overtaken by expiry. ----

  ghost predicate CapturedBy(w: World, a: nat, order: int) {
    && a in w.agents && w.agents[a].Uploading? && w.agents[a].order == order
    && Owns(w.record, order) && CapturedCurrent(w.record.value)
  }

  lemma OthersCannotTouchCapture(w: World, act: Action, a: nat, order: int)
    requires Inv(w) && CapturedBy(w, a, order) && act.a != a && !act.ClaimStep?
    ensures CapturedBy(Step(w, act), a, order)
  {
    if act.a in w.agents {
      assert AgentOk(w, act.a, w.agents[act.a]);
      assert Distinct(w.agents[act.a], w.agents[a]);
    }
  }

  lemma {:induction false} CaptureSurvives(w: World, acts: seq<Action>, a: nat, order: int)
    requires Inv(w) && AllowedRun(w, acts) && CapturedBy(w, a, order)
    requires forall i :: 0 <= i < |acts| ==> acts[i].a != a && !acts[i].ClaimStep?
    ensures CapturedBy(Run(w, acts), a, order)
  {
    hide Step, Inv, CapturedBy;
    if acts != [] {
      var init := acts[..|acts| - 1];
      CaptureSurvives(w, init, a, order);
      RunKeepsInv(w, init);
      OthersCannotTouchCapture(Run(w, init), acts[|acts| - 1], a, order);
    }
  }

  /** Whatever readers and other workers do meanwhile, an upload that captured bytes completes unless re-claimed. */
  lemma CapturedUploadCompletes(w: World, acts: seq<Action>, a: nat, order: int, bytes: nat, now: int, version: Option<int>)
    requires Inv(w) && AllowedRun(w, acts) && CapturedBy(w, a, order)
    requires forall i :: 0 <= i < |acts| ==> acts[i].a != a && !acts[i].ClaimStep?
    ensures StoredComplete(Step(Run(w, acts), Uploaded(a, bytes, now, version)).record)
  {
    CaptureSurvives(w, acts, a, order);
  }

  /** An undisturbed retry of a record that is neither stored nor expired ends complete and stored. */
  lemma UndisturbedRetryCompletes(w: World, a: nat, seen: int, order: int, bytes: nat, now: int, version: Option<int>)
    requires Inv(w) && order !in w.issued && bytes > 0
    requires AgentOf(w, a).Idle? || AgentOf(w, a).Done?
    requires w.record.Some? && !w.record.value.objectStored && w.record.value.retryOrder == Some(seen)
    ensures var w1 := Step(w, ClaimStep(a, seen, order));
            var w2 := Step(w1, BodyRead(a, bytes, now));
            CapturedBy(w2, a, order) && StoredComplete(Step(w2, Uploaded(a, bytes, now, version)).record)
  {
    var w1 := Step(w, ClaimStep(a, seen, order));
    assert AgentOf(w1, a) == ReadingBody(order);
    var w2 := Step(w1, BodyRead(a, bytes, now));
    assert AgentOf(w2, a) == Uploading(order, bytes);
  }

  /** A failed retry leaves the record claimable under its new order; nothing else about it changes. */
  lemma FailureRequeues(w: World, a: nat, next: int)
    requires Inv(w) && a in w.agents && OrderOf(w.agents[a]).Some? && Owns(w.record, OrderOf(w.agents[a]).value)
    ensures var m := Step(w, Failed(a, next)).record;
            m == Some(w.record.value.(retryState := Queued, retryOrder := Some(next)))
  {
  }

  // ---- A record expires only when it is old. ----

  /** The moment an agent found the record old: no bytes for a claimed retry, or a reader past every anchor. */
  ghost predicate FoundOld(act: Action, updatedAt: int) {
    || (act.BodyRead? && act.bytes == 0 && updatedAt + WEEK_MS <= act.now)
    || (act.ReadStarted? && updatedAt + WEEK_MS <= act.now && (act.terminalAt.Some? ==> act.terminalAt.value + WEEK_MS <= act.now))
  }

  ghost predicate HasFoundOld(acts: seq<Action>, a: nat, updatedAt: int) {
    exists i :: 0 <= i < |acts| && acts[i].a == a && FoundOld(acts[i], updatedAt)
  }

  /** An agent that found the record old and then found no logs. */
  ghost predicate WasOld(acts: seq<Action>, updatedAt: int) {
    exists j :: 0 <= j < |acts| && acts[j].LogsRead? && !acts[j].remain && HasFoundOld(acts[..j], acts[j].a, updatedAt)
  }

  ghost predicate Open(m: Option<Meta>) { m.Some? && !IsExpired(m) && !StoredComplete(m) }

  /** Until it is stored or expired the record keeps its last update, and nobody decides on expiry too soon. */
  ghost predicate Aged(start: World, acts: seq<Action>, w: World) {
    && (w.record.Some? ==> start.record.Some?)
    && (Open(w.record) ==> w.record.value.updatedAt == start.record.value.updatedAt)
    && (forall a :: a in w.agents && (w.agents[a].CheckingLogs? || w.agents[a].Deciding?) ==>
          w.record.Some? && HasFoundOld(acts, a, start.record.value.updatedAt))
    && (IsExpired(w.record) && !IsExpired(start.record) ==> WasOld(acts, start.record.value.updatedAt))
  }

  lemma Longer(acts: seq<Action>, act: Action, a: nat, updatedAt: int)
    ensures HasFoundOld(acts, a, updatedAt) ==> HasFoundOld(acts + [act], a, updatedAt)
    ensures WasOld(acts, updatedAt) ==> WasOld(acts + [act], updatedAt)
    ensures act.a == a && FoundOld(act, updatedAt) ==> HasFoundOld(acts + [act], a, updatedAt)
    ensures act.LogsRead? && !act.remain && HasFoundOld(acts, act.a, updatedAt) ==> WasOld(acts + [act], updatedAt)
  {
    var more := acts + [act];
    if i :| 0 <= i < |acts| && acts[i].a == a && FoundOld(acts[i], updatedAt) {
      assert more[i] == acts[i];
    }
    assert more[|acts|] == act && more[..|acts|] == acts;
    if j :| 0 <= j < |acts| && acts[j].LogsRead? && !acts[j].remain && HasFoundOld(acts[..j], acts[j].a, updatedAt) {
      assert more[j] == acts[j] && more[..j] == acts[..j];
    }
  }

  lemma RetentionIsAWeek(now: int, updatedAt: int, terminalAt: Option<int>)
    ensures RetentionElapsed(now, [Some(updatedAt)]) <==> updatedAt + WEEK_MS <= now
    ensures RetentionElapsed(now, [Some(updatedAt), terminalAt]) <==>
            updatedAt + WEEK_MS <= now && (terminalAt.Some? ==> terminalAt.value + WEEK_MS <= now)
  {
    RetentionMeaning(now, [Some(updatedAt)]);
    var both := [Some(updatedAt), terminalAt];
    RetentionMeaning(now, both);
    assert both[0] == Some(updatedAt) && both[1] == terminalAt;
  }

  lemma RecordAges(w: World, act: Action)
    requires Inv(w) && (act.a in w.agents && w.agents[act.a].Deciding? ==> w.record.Some?)
    ensures var next := Step(w, act).record;
            && (next.Some? <==> w.record.Some?)
            && (Open(next) ==> Open(w.record) && next.value.updatedAt == w.record.value.updatedAt)
            && (IsExpired(next) && !IsExpired(w.record) ==>
                  act.LogsRead? && !act.remain && act.a in w.agents && (w.agents[act.a].CheckingLogs? || w.agents[act.a].Deciding?))
  {
    if act.a in w.agents {
      assert AgentOk(w, act.a, w.agents[act.a]);
    }
  }

  lemma DecidesOnOld(w: World, act: Action)
    requires Inv(w) && (AgentOf(Step(w, act), act.a).CheckingLogs? || AgentOf(Step(w, act), act.a).Deciding?)
    ensures AgentOf(Step(w, act), act.a) == AgentOf(w, act.a) || (Open(w.record) && FoundOld(act, w.record.value.updatedAt))
  {
    if w.record.Some? && (act.BodyRead? || act.ReadStarted?) {
      RetentionIsAWeek(act.now, w.record.value.updatedAt, if act.ReadStarted? then act.terminalAt else None);
    }
  }

  lemma NobodyDecides(w: World, act: Action)
    requires Inv(w) && w.record.None? && forall a :: a in w.agents ==> !w.agents[a].CheckingLogs? && !w.agents[a].Deciding?
    ensures forall a :: a in Step(w, act).agents ==> !Step(w, act).agents[a].CheckingLogs? && !Step(w, act).agents[a].Deciding?
  {
  }

  lemma OthersKeepTheirAgent(w: World, act: Action, a: nat)
    requires a != act.a
    ensures AgentOf(Step(w, act), a) == AgentOf(w, a)
  {
  }

  lemma AgedStep(start: World, acts: seq<Action>, w: World, act: Action)
    requires Inv(w) && Aged(start, acts, w)
    ensures Aged(start, acts + [act], Step(w, act))
  {
    hide Inv, Step, HasFoundOld, WasOld, FoundOld, StoredComplete;
    var next := Step(w, act);
    RecordAges(w, act);
    if next.record.None? {
      NobodyDecides(w, act);
    } else {
      var u := start.record.value.updatedAt;
      Longer(acts, act, act.a, u);
      forall a | a in next.agents && (next.agents[a].CheckingLogs? || next.agents[a].Deciding?)
        ensures HasFoundOld(acts + [act], a, u)
      {
        Longer(acts, act, a, u);
        if a == act.a {
          DecidesOnOld(w, act);
        } else {
          OthersKeepTheirAgent(w, act, a);
        }
      }
    }
  }

  lemma {:induction false} RunAges(w: World, acts: seq<Action>)
    requires Start(w) && AllowedRun(w, acts)
    ensures Aged(w, acts, Run(w, acts))
  {
    hide Step, Aged, Inv;
    if acts == [] {
      assert Aged(w, [], w) by { NothingAged(w); }
    } else {
      var init := acts[..|acts| - 1];
      RunAges(w, init);
      StartIsInv(w);
      RunKeepsInv(w, init);
      AgedStep(w, init, Run(w, init), acts[|acts| - 1]);
      assert init + [acts[|acts| - 1]] == acts;
    }
  }

  lemma NothingAged(w: World)
    requires Start(w)
    ensures Aged(w, [], w)
  {
  }

  lemma StartIsInv(w: World)
    requires Start(w)
    ensures Inv(w)
  {
  }

  /**
   * Over any interleaving, an archive expires only after some worker or reader found its last update, and the end of
   * the session if known, a full week in the past, and afterwards found no logs left.
   */
  lemma ExpiresOnlyWhenOld(w: World, acts: seq<Action>)
    requires Start(w) && AllowedRun(w, acts) && !IsExpired(w.record) && IsExpired(Run(w, acts).record)
    ensures w.record.Some?
    ensures exists i, j :: 0 <= i < j < |acts| && acts[i].a == acts[j].a && FoundOld(acts[i], w.record.value.updatedAt)
                           && acts[j].LogsRead? && !acts[j].remain
  {
    hide Run, AllowedRun, FoundOld;
    RunAges(w, acts);
    var u := w.record.value.updatedAt;
    var j :| 0 <= j < |acts| && acts[j].LogsRead? && !acts[j].remain && HasFoundOld(acts[..j], acts[j].a, u);
    var i :| 0 <= i < j && acts[..j][i].a == acts[j].a && FoundOld(acts[..j][i], u);
    assert acts[..j][i] == acts[i];
  }

  // ---- What an undisturbed worker, reader or replacement achieves. ----

  predicate Old(updatedAt: int, now: int) { updatedAt + WEEK_MS <= now }

  /** A retry without bytes: an old record expires once no logs are found and stays claimed while they remain; a fresh one is uploaded. */
  lemma EmptyRetryOutcome(w: World, a: nat, seen: int, order: int, now: int, later: int, version: Option<int>)
    requires Inv(w) && order !in w.issued && (AgentOf(w, a).Idle? || AgentOf(w, a).Done?)
    requires Claimable(w.record, seen) && !CapturedAs(w.record.value, order)
    ensures var claimed := w.record.value.(retryState := Processing, retryOrder := Some(order));
            var read := Step(Step(w, ClaimStep(a, seen, order)), BodyRead(a, 0, now));
            && read.record == Some(claimed) && read.issued == w.issued + {order} && read.holder == Some((a, order))
            && (Old(w.record.value.updatedAt, now) ==>
                  && IsExpired(Step(read, LogsRead(a, false, later)).record)
                  && Step(read, LogsRead(a, true, later)).record == Some(claimed))
            && (!Old(w.record.value.updatedAt, now) ==>
                  && StoredComplete(Step(read, Uploaded(a, 0, later, version)).record)
                  && Step(read, LogsRead(a, false, later)) == read)
  {
    RetentionIsAWeek(now, w.record.value.updatedAt, None);
    var mid := Step(w, ClaimStep(a, seen, order));
    assert AgentOf(mid, a) == ReadingBody(order) && mid.record == Some(w.record.value.(retryState := Processing, retryOrder := Some(order)));
  }

  /** A reader expires a pending record exactly if it is old by every known anchor, no logs are left and no upload has its bytes. */
  lemma ReaderOutcome(w: World, a: nat, now: int, later: int, terminalAt: Option<int>)
    requires Inv(w) && (AgentOf(w, a).Idle? || AgentOf(w, a).Done?) && w.record.Some? && w.record.value.status.Pending?
    ensures var read := Step(w, ReadStarted(a, now, terminalAt));
            var aged := Old(w.record.value.updatedAt, now) && (terminalAt.Some? ==> Old(terminalAt.value, now));
            && read.record == w.record && Step(read, LogsRead(a, true, later)).record == w.record
            && (IsExpired(Step(read, LogsRead(a, false, later)).record) <==> aged && !CapturedCurrent(w.record.value))
            && (!aged || CapturedCurrent(w.record.value) ==> Step(read, LogsRead(a, false, later)).record == w.record)
  {
    RetentionIsAWeek(now, w.record.value.updatedAt, terminalAt);
  }

  /** A finished record is not taken up by a reader. */
  lemma ReaderLeavesFinished(w: World, a: nat, now: int, terminalAt: Option<int>)
    requires AgentOf(w, a).Idle? || AgentOf(w, a).Done?
    requires w.record.None? || !w.record.value.status.Pending?
    ensures Step(w, ReadStarted(a, now, terminalAt)) == Become(w, a, Done)
  {
  }

  /** A stored archive with a version is replaced exactly if that version is still the stored one and the new object has one. */
  lemma ReplacementOutcome(w: World, a: nat, w': World, bytes: nat, now: int, version: Option<int>)
    requires Inv(w) && (AgentOf(w, a).Idle? || AgentOf(w, a).Done?) && StoredComplete(w.record) && w.record.value.versionId.Some?
    requires AgentOf(w', a) == AgentOf(Step(w, ReplaceStarted(a)), a)
    ensures Step(w, ReplaceStarted(a)).record == w.record
    ensures var next := Step(w', Uploaded(a, bytes, now, version)).record;
            if StoredComplete(w'.record) && w'.record.value.versionId == w.record.value.versionId && version.Some?
            then StoredComplete(next) && next.value.bodyBytes == bytes && next.value.versionId == version && next.value.updatedAt == now
            else next == w'.record
  {
  }

  /** A worker whose claim was taken over, or whose record is gone or finished, writes nothing when its bytes arrive or its upload ends. */
  lemma LostClaimWritesNothing(w: World, a: nat, bytes: nat, now: int, version: Option<int>)
    requires OrderOf(AgentOf(w, a)).Some? && !Owns(w.record, OrderOf(AgentOf(w, a)).value)
    ensures bytes > 0 ==> Step(w, BodyRead(a, bytes, now)).record == w.record
    ensures Step(w, Uploaded(a, bytes, now, version)).record == w.record
    ensures AgentOf(w, a).Uploading? && !(StoredComplete(w.record) && w.record.value.versionId.None?) ==>
              AgentOf(Step(w, Uploaded(a, bytes, now, version)), a).Done?
    ensures AgentOf(w, a).ReadingBody? && bytes > 0 && (w.record.None? || IsExpired(w.record)) ==>
              AgentOf(Step(w, BodyRead(a, bytes, now)), a).Done?
  {
  }
}
