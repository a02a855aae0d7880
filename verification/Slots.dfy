/** Workspace slots of a host across inventory writes (services/api/src/control-plane-agent-hosts.ts). */
module Slots {
  import opened Options
  import opened Inventory

  datatype Status = Idle | Busy | Error

  datatype SlotRecord = SlotRecord(
    id: string, name: string, path: string, host: string, pool: string, status: Status,
    online: bool, session: Option<string>, conn: Option<string>, retired: bool)

  type Table = map<string, SlotRecord>

  predicate Active(s: SlotRecord) { s.status.Busy? || s.session.Some? }

  ghost predicate Keyed(table: Table) { forall id :: id in table ==> table[id].id == id }

  /** A slot of the host is busy exactly when it holds a session. */
  ghost predicate Consistent(table: Table, host: string) {
    forall id :: id in table && table[id].host == host ==> (table[id].status.Busy? <==> table[id].session.Some?)
  }

  // Accepting a write

  /** Another slot of the host is in use at a path that is a spelling of this one. */
  predicate AliasInUse(table: Table, host: string, slot: Slot, alias: string -> string) {
    exists id :: id in table && table[id].host == host && table[id].id != slot.id && Active(table[id])
                 && alias(table[id].path) == alias(slot.path)
  }

  predicate SlotAccepted(table: Table, host: string, pool: string, slot: Slot, alias: string -> string) {
    && (slot.id in table ==>
          && table[slot.id].host == host
          && (Active(table[slot.id]) ==> table[slot.id].name == slot.name && table[slot.id].path == slot.path && table[slot.id].pool == pool))
    && !AliasInUse(table, host, slot, alias)
  }

  predicate PoolAccepted(table: Table, host: string, known: set<string>, pool: Pool, alias: string -> string) {
    pool.workspacePoolId in known && forall j :: 0 <= j < |pool.slots| ==> SlotAccepted(table, host, pool.workspacePoolId, pool.slots[j], alias)
  }

  /** The workspace part of `prepareHostInventory`: every pool is known and no slot in use would change. */
  method PoolsAccepted(table: Table, host: string, known: set<string>, pools: seq<Pool>, alias: string -> string) returns (ok: bool)
    ensures ok <==> forall i :: 0 <= i < |pools| ==> PoolAccepted(table, host, known, pools[i], alias)
  {
    hide SlotAccepted;
    for i := 0 to |pools|
      invariant forall k :: 0 <= k < i ==> PoolAccepted(table, host, known, pools[k], alias)
    {
      if pools[i].workspacePoolId !in known {
        return false;
      }
      for j := 0 to |pools[i].slots|
        invariant forall k :: 0 <= k < j ==> SlotAccepted(table, host, pools[i].workspacePoolId, pools[i].slots[k], alias)
      {
        if !SlotAccepted(table, host, pools[i].workspacePoolId, pools[i].slots[j], alias) {
          return false;
        }
      }
    }
    return true;
  }

  // Projection

  datatype Entry = Entry(pool: string, slot: Slot)

  function PoolEntries(pool: Pool): seq<Entry> {
    seq(|pool.slots|, j requires 0 <= j < |pool.slots| => Entry(pool.workspacePoolId, pool.slots[j]))
  }

  function Entries(pools: seq<Pool>): seq<Entry> {
    if pools == [] then [] else PoolEntries(pools[0]) + Entries(pools[1..])
  }

  predicate Acknowledged(advertised: seq<Pool>, e: Entry) {
    exists i, j :: 0 <= i < |advertised| && advertised[i].workspacePoolId == e.pool
                   && 0 <= j < |advertised[i].slots| && advertised[i].slots[j] == e.slot
  }

  /** `advertised` is absent for an operator's write; `conn` is the host's connection, if any. */
  function Project(table: Table, host: string, e: Entry, advertised: Option<seq<Pool>>, conn: Option<string>): SlotRecord {
    var previous := if e.slot.id in table then Some(table[e.slot.id]) else None;
    var same := previous.Some? && previous.value.host == host && previous.value.pool == e.pool && previous.value.path == e.slot.path;
    var acknowledged := advertised.Some? && Acknowledged(advertised.value, e);
    SlotRecord(
      e.slot.id, e.slot.name, e.slot.path, host, e.pool,
      if previous.Some? && !previous.value.status.Idle? then previous.value.status else Idle,
      if advertised.Some? then acknowledged && conn.Some? else same && previous.value.online,
      if previous.Some? then previous.value.session else None,
      if acknowledged then conn else if advertised.Some? then None else if same then previous.value.conn else None,
      false)
  }

  ghost predicate Configured(entries: seq<Entry>, id: string) {
    exists k :: 0 <= k < |entries| && entries[k].slot.id == id
  }

  function Retire(s: SlotRecord): SlotRecord { s.(online := false, retired := true) }

  datatype Projection = Projection(slots: seq<SlotRecord>, retired: set<string>, removed: set<string>)

  method ProjectHostWorkspaceSlots(table: Table, host: string, pools: seq<Pool>, advertised: Option<seq<Pool>>, conn: Option<string>)
    returns (p: Projection)
    ensures IsProjection(table, host, Entries(pools), advertised, conn, p)
  {
    hide Project;
    var configured := {};
    var slots := [];
    ghost var done: seq<Entry> := [];
    for i := 0 to |pools|
      invariant done == Entries(pools[..i]) && |slots| == |done|
      invariant forall k :: 0 <= k < |slots| ==> slots[k] == Project(table, host, done[k], advertised, conn)
      invariant forall id :: id in configured <==> Configured(done, id)
    {
      hide Entries;
      EntriesUpTo(pools, i);
      var entries := PoolEntries(pools[i]);
      ghost var before := done;
      for j := 0 to |entries|
        invariant done == before + entries[..j] && |slots| == |done|
        invariant forall k :: 0 <= k < |slots| ==> slots[k] == Project(table, host, done[k], advertised, conn)
        invariant forall id :: id in configured <==> Configured(done, id)
      {
        ConfiguredSnoc(done, entries[j]);
        configured := configured + {entries[j].slot.id};
        slots := slots + [Project(table, host, entries[j], advertised, conn)];
        assert before + entries[..j + 1] == done + [entries[j]];
        done := done + [entries[j]];
      }
      assert entries[..|entries|] == entries;
    }
    assert pools[..|pools|] == pools;
    p := Projection(
      slots,
      set id | id in table && table[id].host == host && id !in configured && (table[id].status.Busy? || table[id].session.Some?),
      set id | id in table && table[id].host == host && id !in configured && !table[id].status.Busy?);
  }

  lemma {:induction false} EntriesConcat(xs: seq<Pool>, ys: seq<Pool>)
    ensures Entries(xs + ys) == Entries(xs) + Entries(ys)
  {
    hide PoolEntries;
    if xs == [] {
      assert xs + ys == ys;
    } else {
      EntriesConcat(xs[1..], ys);
      assert (xs + ys)[1..] == xs[1..] + ys;
      EntriesAssoc(PoolEntries(xs[0]), Entries(xs[1..]), Entries(ys));
    }
  }

  lemma EntriesAssoc(a: seq<Entry>, b: seq<Entry>, c: seq<Entry>)
    ensures a + (b + c) == a + b + c
  {
  }

  lemma EntriesUpTo(pools: seq<Pool>, i: nat)
    requires i < |pools|
    ensures Entries(pools[..i + 1]) == Entries(pools[..i]) + PoolEntries(pools[i])
  {
    hide PoolEntries;
    assert pools[..i + 1] == pools[..i] + [pools[i]];
    EntriesConcat(pools[..i], [pools[i]]);
    assert Entries([pools[i]]) == PoolEntries(pools[i]) + [] == PoolEntries(pools[i]);
  }

  lemma ConfiguredSnoc(entries: seq<Entry>, e: Entry)
    ensures forall id :: Configured(entries + [e], id) <==> Configured(entries, id) || id == e.slot.id
  {
    var all := entries + [e];
    assert forall k :: 0 <= k < |entries| ==> all[k] == entries[k];
    assert all[|entries|] == e;
    forall id
      ensures Configured(all, id) <==> Configured(entries, id) || id == e.slot.id
    {
      if Configured(entries, id) {
        var k :| 0 <= k < |entries| && entries[k].slot.id == id;
        assert all[k].slot.id == id;
      }
    }
  }

  // The table after a write

  ghost predicate DistinctEntries(entries: seq<Entry>) {
    forall i, j :: 0 <= i < j < |entries| ==> entries[i].slot.id != entries[j].slot.id
  }

  ghost predicate Accepted(table: Table, host: string, entries: seq<Entry>, alias: string -> string) {
    && DistinctEntries(entries)
    && forall k :: 0 <= k < |entries| ==> SlotAccepted(table, host, entries[k].pool, entries[k].slot, alias)
  }

  /** The check on the nested pools covers every configured slot. */
  lemma {:induction false} EntriesAccepted(table: Table, host: string, known: set<string>, pools: seq<Pool>, alias: string -> string)
    requires forall i :: 0 <= i < |pools| ==> PoolAccepted(table, host, known, pools[i], alias)
    ensures forall k :: 0 <= k < |Entries(pools)| ==> SlotAccepted(table, host, Entries(pools)[k].pool, Entries(pools)[k].slot, alias)
  {
    hide SlotAccepted;
    if pools != [] {
      EntriesAccepted(table, host, known, pools[1..], alias);
      var first, rest := PoolEntries(pools[0]), Entries(pools[1..]);
      assert PoolAccepted(table, host, known, pools[0], alias);
      forall k | 0 <= k < |Entries(pools)|
        ensures SlotAccepted(table, host, Entries(pools)[k].pool, Entries(pools)[k].slot, alias)
      {
        assert Entries(pools)[k] == if k < |first| then first[k] else rest[k - |first|];
      }
    }
  }

  /** Configured slots are written, then tombstones, then the removed ones are deleted. */
  ghost function Synced(table: Table, host: string, entries: seq<Entry>, advertised: Option<seq<Pool>>, conn: Option<string>, id: string): Option<SlotRecord> {
    if Configured(entries, id) then
      var k :| 0 <= k < |entries| && entries[k].slot.id == id;
      Some(Project(table, host, entries[k], advertised, conn))
    else if id !in table then None
    else if table[id].host != host then Some(table[id])
    else if !table[id].status.Busy? then None
    else Some(Retire(table[id]))
  }

  class SlotStore {
    var table: Table

    /** `releaseWorkspaceSlotLocal`, as it concerns the slot. */
    method ReleaseWorkspaceSlot(id: string, session: string, failed: bool)
      modifies this
      ensures table == FreeSlot(old(table), id, session, failed)
      ensures id in old(table) && old(table)[id].session == Some(session) && old(table)[id].retired ==> id !in table
      ensures id in old(table) && old(table)[id].session == Some(session) && !old(table)[id].retired ==>
                id in table && table[id] == old(table)[id].(status := if failed then Error else Idle, session := None)
      ensures !(id in old(table) && old(table)[id].session == Some(session)) ==> table == old(table)
      ensures forall k :: k != id ==> Row(table, k) == Row(old(table), k)
    {
      if id in table && table[id].session == Some(session) {
        table := table[id := table[id].(status := if failed then Error else Idle, session := None)];
        if table[id].retired {
          table := table - {id};
        }
      }
    }

    method WriteSlots(slots: seq<SlotRecord>)
      requires forall i, j :: 0 <= i < j < |slots| ==> slots[i].id != slots[j].id
      modifies this
      ensures Written(old(table), slots, table)
    {
      for i := 0 to |slots|
        invariant Written(old(table), slots[..i], table)
      {
        assert slots[..i + 1] == slots[..i] + [slots[i]];
        WrittenSnoc(old(table), slots[..i], table, slots[i]);
        table := table[slots[i].id := slots[i]];
      }
      assert slots[..|slots|] == slots;
    }

    /** `syncHostWorkspaceSlots`, in memory. */
    method SyncHostWorkspaceSlots(host: string, pools: seq<Pool>, advertised: Option<seq<Pool>>, conn: Option<string>)
      requires Keyed(table) && DistinctEntries(Entries(pools))
      modifies this
      ensures Keyed(table)
      ensures forall id :: Row(table, id) == Synced(old(table), host, Entries(pools), advertised, conn, id)
    {
      hide Project, Entries, Written, Synced, Configured;
      var p := ProjectHostWorkspaceSlots(table, host, pools, advertised, conn);
      ghost var entries := Entries(pools);
      forall k | 0 <= k < |entries|
        ensures p.slots[k].id == entries[k].slot.id
      {
        ProjectedId(old(table), host, entries[k], advertised, conn);
      }
      WriteSlots(p.slots);
      ghost var written := table;
      var retired := p.retired;
      table := map id | id in table :: if id in retired then Retire(table[id]) else table[id];
      table := table - p.removed;
      forall id
        ensures Row(table, id) == Synced(old(table), host, entries, advertised, conn, id)
        ensures id in table ==> table[id].id == id
      {
        SyncedRow(old(table), host, entries, advertised, conn, p, written, id);
      }
    }
  }

  function Row(table: Table, id: string): Option<SlotRecord> { if id in table then Some(table[id]) else None }

  /** `after` is `before` with the slots written. */
  ghost predicate Written(before: Table, slots: seq<SlotRecord>, after: Table) {
    && (forall k :: 0 <= k < |slots| ==> slots[k].id in after && after[slots[k].id] == slots[k])
    && (forall id :: (forall k :: 0 <= k < |slots| ==> slots[k].id != id) ==> Row(after, id) == Row(before, id))
  }

  lemma WrittenSnoc(before: Table, slots: seq<SlotRecord>, after: Table, s: SlotRecord)
    requires Written(before, slots, after) && forall k :: 0 <= k < |slots| ==> slots[k].id != s.id
    ensures Written(before, slots + [s], after[s.id := s])
  {
    var all, next := slots + [s], after[s.id := s];
    assert all[|slots|] == s && forall k :: 0 <= k < |slots| ==> all[k] == slots[k];
    forall id | forall k :: 0 <= k < |all| ==> all[k].id != id
      ensures Row(next, id) == Row(before, id)
    {
      assert all[|slots|].id != id;
      assert forall k :: 0 <= k < |slots| ==> all[k].id != id;
    }
  }

  ghost predicate IsProjection(table: Table, host: string, entries: seq<Entry>, advertised: Option<seq<Pool>>, conn: Option<string>, p: Projection) {
    && |p.slots| == |entries|
    && (forall k :: 0 <= k < |p.slots| ==> p.slots[k] == Project(table, host, entries[k], advertised, conn))
    && (forall id :: id in p.retired <==> id in table && table[id].host == host && !Configured(entries, id) && Active(table[id]))
    && (forall id :: id in p.removed <==> id in table && table[id].host == host && !Configured(entries, id) && !table[id].status.Busy?)
  }

  lemma SyncedRow(table: Table, host: string, entries: seq<Entry>, advertised: Option<seq<Pool>>, conn: Option<string>, p: Projection, written: Table, id: string)
    requires Keyed(table) && DistinctEntries(entries)
    requires IsProjection(table, host, entries, advertised, conn, p) && Written(table, p.slots, written)
    ensures var row := if id in p.removed || id !in written then None else if id in p.retired then Some(Retire(written[id])) else Some(written[id]);
            row == Synced(table, host, entries, advertised, conn, id) && (row.Some? ==> row.value.id == id)
  {
    hide Project;
    forall k | 0 <= k < |entries|
      ensures p.slots[k].id == entries[k].slot.id
    {
      ProjectedId(table, host, entries[k], advertised, conn);
    }
    if Configured(entries, id) {
      var k :| 0 <= k < |entries| && entries[k].slot.id == id;
      ConfiguredEntry(table, host, entries, advertised, conn, k);
      assert written[id] == p.slots[k];
    } else {
      assert Row(written, id) == Row(table, id);
    }
  }

  lemma ProjectedId(table: Table, host: string, e: Entry, advertised: Option<seq<Pool>>, conn: Option<string>)
    ensures Project(table, host, e, advertised, conn).id == e.slot.id
    ensures Project(table, host, e, advertised, conn).host == host
  {
  }

  lemma ConfiguredEntry(table: Table, host: string, entries: seq<Entry>, advertised: Option<seq<Pool>>, conn: Option<string>, k: nat)
    requires k < |entries| && DistinctEntries(entries)
    ensures Synced(table, host, entries, advertised, conn, entries[k].slot.id) == Some(Project(table, host, entries[k], advertised, conn))
  {
    hide Project;
    assert Configured(entries, entries[k].slot.id);
  }

  /** An accepted write keeps every slot in use: same place, same pool, same session; unlisted ones as tombstones. */
  lemma ActiveSlotsSurvive(table: Table, host: string, entries: seq<Entry>, advertised: Option<seq<Pool>>, conn: Option<string>, alias: string -> string, id: string)
    requires Keyed(table) && Consistent(table, host) && Accepted(table, host, entries, alias)
    requires id in table && table[id].host == host && Active(table[id])
    ensures var after := Synced(table, host, entries, advertised, conn, id);
            && after.Some? && after.value.id == id && after.value.name == table[id].name
            && after.value.path == table[id].path && after.value.pool == table[id].pool
            && after.value.session == table[id].session && after.value.status == table[id].status
            && (!Configured(entries, id) ==> after == Some(Retire(table[id])))
  {
    hide AliasInUse;
    if Configured(entries, id) {
      var k :| 0 <= k < |entries| && entries[k].slot.id == id;
      ConfiguredEntry(table, host, entries, advertised, conn, k);
      assert SlotAccepted(table, host, entries[k].pool, entries[k].slot, alias);
    }
  }

  /** Every slot the host had is configured, retired or removed, and never two of these. */
  lemma HostSlotsPartition(table: Table, host: string, entries: seq<Entry>, advertised: Option<seq<Pool>>, conn: Option<string>, p: Projection)
    requires Consistent(table, host) && IsProjection(table, host, entries, advertised, conn, p)
    ensures forall id :: id in table && table[id].host == host ==> Configured(entries, id) || id in p.retired || id in p.removed
    ensures forall id :: Configured(entries, id) ==> id !in p.retired && id !in p.removed
    ensures p.retired !! p.removed
  {
    hide Configured, Project;
    assert forall id :: id in p.retired ==> table[id].status.Busy?;
  }

  /** Other hosts' slots are untouched, and the host's slots stay consistent. */
  lemma WriteKeepsConsistent(table: Table, host: string, entries: seq<Entry>, advertised: Option<seq<Pool>>, conn: Option<string>, alias: string -> string, id: string)
    requires Keyed(table) && Consistent(table, host) && Accepted(table, host, entries, alias)
    ensures id in table && table[id].host != host ==> Synced(table, host, entries, advertised, conn, id) == Some(table[id])
    ensures var after := Synced(table, host, entries, advertised, conn, id);
            after.Some? && after.value.host == host ==> (after.value.status.Busy? <==> after.value.session.Some?)
  {
    hide AliasInUse;
    if Configured(entries, id) {
      var k :| 0 <= k < |entries| && entries[k].slot.id == id;
      ConfiguredEntry(table, host, entries, advertised, conn, k);
      assert SlotAccepted(table, host, entries[k].pool, entries[k].slot, alias);
    }
  }

  /** Slots of the host in use have places of their own. */
  ghost predicate InUseApart(table: Table, host: string, alias: string -> string) {
    forall a, b :: a != b && InUse(table, host, a) && InUse(table, host, b) ==> alias(table[a].path) != alias(table[b].path)
  }

  predicate InUse(table: Table, host: string, id: string) { id in table && table[id].host == host && Active(table[id]) }

  /** What a row after a write can be: a configured slot, or a slot in use that was there before. */
  lemma SyncedOrigin(table: Table, host: string, entries: seq<Entry>, advertised: Option<seq<Pool>>, conn: Option<string>, id: string)
    requires Keyed(table) && DistinctEntries(entries)
    requires Synced(table, host, entries, advertised, conn, id).Some? && Synced(table, host, entries, advertised, conn, id).value.host == host
    ensures var r := Synced(table, host, entries, advertised, conn, id).value;
            || (exists k :: 0 <= k < |entries| && entries[k].slot.id == id && r.path == entries[k].slot.path)
            || (!Configured(entries, id) && id in table && table[id].host == host && Active(table[id]) && r.path == table[id].path)
  {
    hide Acknowledged;
    if Configured(entries, id) {
      var k :| 0 <= k < |entries| && entries[k].slot.id == id;
      ConfiguredEntry(table, host, entries, advertised, conn, k);
    }
  }

  /**
   * After an accepted write no slot of the host, configured or tombstone, has a spelling of the place of another
   * slot in use. Before it, only the slots in use need to be apart.
   */
  lemma InUseKeepsItsPlace(table: Table, host: string, entries: seq<Entry>, advertised: Option<seq<Pool>>, conn: Option<string>, alias: string -> string, a: string, b: string)
    requires Keyed(table) && Consistent(table, host) && Accepted(table, host, entries, alias) && InUseApart(table, host, alias)
    requires a != b && Synced(table, host, entries, advertised, conn, a).Some? && Synced(table, host, entries, advertised, conn, b).Some?
    requires var ra, rb := Synced(table, host, entries, advertised, conn, a).value, Synced(table, host, entries, advertised, conn, b).value;
             ra.host == host && rb.host == host && Active(ra)
    ensures alias(Synced(table, host, entries, advertised, conn, a).value.path) != alias(Synced(table, host, entries, advertised, conn, b).value.path)
  {
    hide Synced, AliasInUse, Configured;
    WasInUse(table, host, entries, advertised, conn, alias, a);
    SyncedOrigin(table, host, entries, advertised, conn, b);
    if k :| 0 <= k < |entries| && entries[k].slot.id == b
            && Synced(table, host, entries, advertised, conn, b).value.path == entries[k].slot.path {
      assert SlotAccepted(table, host, entries[k].pool, entries[k].slot, alias);
      NotAliased(table, host, entries[k].slot, alias, a);
    }
  }

  lemma NotAliased(table: Table, host: string, slot: Slot, alias: string -> string, id: string)
    requires Keyed(table) && !AliasInUse(table, host, slot, alias)
    requires id in table && table[id].host == host && Active(table[id]) && id != slot.id
    ensures alias(slot.path) != alias(table[id].path)
  {
  }

  /** A slot in use after a write was in use, at the same place, before it. */
  lemma WasInUse(table: Table, host: string, entries: seq<Entry>, advertised: Option<seq<Pool>>, conn: Option<string>, alias: string -> string, id: string)
    requires Keyed(table) && Consistent(table, host) && Accepted(table, host, entries, alias)
    requires var r := Synced(table, host, entries, advertised, conn, id); r.Some? && r.value.host == host && Active(r.value)
    ensures var r := Synced(table, host, entries, advertised, conn, id).value;
            id in table && table[id].host == host && Active(table[id]) && table[id].path == r.path
  {
    hide AliasInUse, Acknowledged;
    if Configured(entries, id) {
      var k :| 0 <= k < |entries| && entries[k].slot.id == id;
      ConfiguredEntry(table, host, entries, advertised, conn, k);
      assert SlotAccepted(table, host, entries[k].pool, entries[k].slot, alias);
    }
  }

  ghost predicate SamePlace(a: SlotRecord, b: SlotRecord) {
    a.name == b.name && a.path == b.path && a.pool == b.pool && a.host == b.host
  }

  /** Every slot of the host in use is as it was, and no other slot of the host lies at its place. */
  ghost predicate UseRespected(table: Table, host: string, entries: seq<Entry>, advertised: Option<seq<Pool>>, conn: Option<string>, alias: string -> string) {
    forall id :: InUse(table, host, id) ==>
      && (var after := Synced(table, host, entries, advertised, conn, id);
          after.Some? && SamePlace(after.value, table[id]) && after.value.session == table[id].session && after.value.status == table[id].status)
      && (forall k :: 0 <= k < |entries| && entries[k].slot.id != id ==> alias(entries[k].slot.path) != alias(table[id].path))
  }

  ghost predicate NoForeignId(table: Table, host: string, entries: seq<Entry>) {
    forall k :: 0 <= k < |entries| && entries[k].slot.id in table ==> table[entries[k].slot.id].host == host
  }

  lemma SlotAcceptedIff(table: Table, host: string, entries: seq<Entry>, advertised: Option<seq<Pool>>, conn: Option<string>, alias: string -> string, k: nat)
    requires Keyed(table) && DistinctEntries(entries) && k < |entries|
    requires NoForeignId(table, host, entries) && UseRespected(table, host, entries, advertised, conn, alias)
    ensures SlotAccepted(table, host, entries[k].pool, entries[k].slot, alias)
  {
    hide Synced, Acknowledged, AliasInUse;
    var id := entries[k].slot.id;
    ConfiguredEntry(table, host, entries, advertised, conn, k);
    if AliasInUse(table, host, entries[k].slot, alias) {
      AliasWitness(table, host, entries[k].slot, alias);
    }
    if id in table && Active(table[id]) {
      assert InUse(table, host, id);
    }
  }

  lemma AliasWitness(table: Table, host: string, slot: Slot, alias: string -> string)
    requires Keyed(table) && AliasInUse(table, host, slot, alias)
    ensures exists id :: InUse(table, host, id) && id != slot.id && alias(slot.path) == alias(table[id].path)
  {
    var id :| id in table && table[id].host == host && table[id].id != slot.id && Active(table[id]) && alias(table[id].path) == alias(slot.path);
    assert InUse(table, host, id);
  }

  /**
   * The check refuses no more than it must: a write is accepted exactly when it takes no slot of another host, leaves
   * every slot in use as it is, and puts no other slot at the place of one in use.
   */
  lemma AcceptedIffUseRespected(table: Table, host: string, entries: seq<Entry>, advertised: Option<seq<Pool>>, conn: Option<string>, alias: string -> string)
    requires Keyed(table) && Consistent(table, host) && DistinctEntries(entries)
    ensures Accepted(table, host, entries, alias) <==>
            NoForeignId(table, host, entries) && UseRespected(table, host, entries, advertised, conn, alias)
  {
    hide Synced, AliasInUse, Acknowledged;
    if Accepted(table, host, entries, alias) {
      forall id | InUse(table, host, id)
        ensures var after := Synced(table, host, entries, advertised, conn, id);
                after.Some? && SamePlace(after.value, table[id]) && after.value.session == table[id].session && after.value.status == table[id].status
        ensures forall k :: 0 <= k < |entries| && entries[k].slot.id != id ==> alias(entries[k].slot.path) != alias(table[id].path)
      {
        ActiveSlotsSurvive(table, host, entries, advertised, conn, alias, id);
        HostKept(table, host, entries, advertised, conn, id);
        forall k | 0 <= k < |entries| && entries[k].slot.id != id
          ensures alias(entries[k].slot.path) != alias(table[id].path)
        {
          assert SlotAccepted(table, host, entries[k].pool, entries[k].slot, alias);
          NotAliased(table, host, entries[k].slot, alias, id);
        }
      }
    }
    if NoForeignId(table, host, entries) && UseRespected(table, host, entries, advertised, conn, alias) {
      forall k | 0 <= k < |entries|
        ensures SlotAccepted(table, host, entries[k].pool, entries[k].slot, alias)
      {
        SlotAcceptedIff(table, host, entries, advertised, conn, alias, k);
      }
    }
  }

  lemma HostKept(table: Table, host: string, entries: seq<Entry>, advertised: Option<seq<Pool>>, conn: Option<string>, id: string)
    requires DistinctEntries(entries) && id in table && table[id].host == host
    ensures var after := Synced(table, host, entries, advertised, conn, id); after.Some? ==> after.value.host == host
  {
    hide Project;
    if Configured(entries, id) {
      var k :| 0 <= k < |entries| && entries[k].slot.id == id;
      ConfiguredEntry(table, host, entries, advertised, conn, k);
      ProjectedId(table, host, entries[k], advertised, conn);
    }
  }

  /** What a configured slot becomes: its listed place, its session and error as before, and no tombstone. */
  lemma ConfiguredSlot(table: Table, host: string, entries: seq<Entry>, advertised: Option<seq<Pool>>, conn: Option<string>, k: nat)
    requires k < |entries| && DistinctEntries(entries)
    ensures var e := entries[k];
            var r := Synced(table, host, entries, advertised, conn, e.slot.id);
            && r.Some? && r.value.id == e.slot.id && r.value.name == e.slot.name && r.value.path == e.slot.path
            && r.value.host == host && r.value.pool == e.pool && !r.value.retired
            && (e.slot.id in table ==> r.value.session == table[e.slot.id].session && r.value.status == table[e.slot.id].status)
            && (e.slot.id !in table ==> r.value.session.None? && r.value.status.Idle?)
  {
    ConfiguredEntry(table, host, entries, advertised, conn, k);
  }

  /** A registration brings online exactly the slots it advertises, at the same place, on a connected host. */
  lemma AdvertisedSlotsOnline(table: Table, host: string, entries: seq<Entry>, advertised: seq<Pool>, conn: Option<string>, k: nat)
    requires k < |entries| && DistinctEntries(entries)
    ensures var e, r := entries[k], Synced(table, host, entries, Some(advertised), conn, entries[k].slot.id);
            var listed := exists i, j :: 0 <= i < |advertised| && advertised[i].workspacePoolId == e.pool
                                         && 0 <= j < |advertised[i].slots| && advertised[i].slots[j] == e.slot;
            && r.Some? && (r.value.online <==> listed && conn.Some?)
            && r.value.conn == (if listed then conn else None)
  {
    ConfiguredEntry(table, host, entries, Some(advertised), conn, k);
  }

  /** An operator's write keeps a slot online, with its connection, exactly if it stays where it is. */
  lemma UnmovedSlotsStayOnline(table: Table, host: string, entries: seq<Entry>, conn: Option<string>, k: nat)
    requires k < |entries| && DistinctEntries(entries)
    ensures var e, r := entries[k], Synced(table, host, entries, None, conn, entries[k].slot.id);
            var unmoved := e.slot.id in table && table[e.slot.id].host == host && table[e.slot.id].pool == e.pool && table[e.slot.id].path == e.slot.path;
            && r.Some? && (r.value.online <==> unmoved && table[e.slot.id].online)
            && r.value.conn == (if unmoved then table[e.slot.id].conn else None)
  {
    ConfiguredEntry(table, host, entries, None, conn, k);
  }

  /** An unlisted slot of the host is gone, or an offline tombstone while its session lasts. */
  lemma UnlistedSlot(table: Table, host: string, entries: seq<Entry>, advertised: Option<seq<Pool>>, conn: Option<string>, id: string)
    requires Consistent(table, host) && id in table && table[id].host == host && !Configured(entries, id)
    ensures var r := Synced(table, host, entries, advertised, conn, id);
            if table[id].session.None? then r.None?
            else r.Some? && r.value.retired && !r.value.online && r.value.session == table[id].session && SamePlace(r.value, table[id])
  {
  }

  // Runs of inventory writes, claims and releases

  datatype Action =
    | Put(host: string, known: set<string>, pools: seq<Pool>)
    | Claim(id: string, session: string, conn: string)
    | Free(id: string, session: string, failed: bool)
    | SetOnline(id: string, online: bool)

  ghost predicate PutAccepted(table: Table, host: string, known: set<string>, pools: seq<Pool>, alias: string -> string) {
    DistinctEntries(Entries(pools)) && forall i :: 0 <= i < |pools| ==> PoolAccepted(table, host, known, pools[i], alias)
  }

  ghost function ConfiguredIds(entries: seq<Entry>): set<string> { set k | 0 <= k < |entries| :: entries[k].slot.id }

  /** The whole table after an operator's write. */
  ghost function SyncedTable(table: Table, host: string, entries: seq<Entry>): Table {
    map id | id in table.Keys + ConfiguredIds(entries) && Synced(table, host, entries, None, None, id).Some?
        :: Synced(table, host, entries, None, None, id).value
  }

  lemma SyncedTableRow(table: Table, host: string, entries: seq<Entry>, id: string)
    ensures Row(SyncedTable(table, host, entries), id) == Synced(table, host, entries, None, None, id)
  {
    hide Project;
    if Configured(entries, id) {
      var k :| 0 <= k < |entries| && entries[k].slot.id == id;
      assert entries[k].slot.id in ConfiguredIds(entries);
    }
  }

  /** An idle online slot is claimed; tombstones are offline. */
  function ClaimSlot(table: Table, id: string, session: string, conn: string): Table {
    if id in table && table[id].status.Idle? && table[id].online then
      table[id := table[id].(status := Busy, session := Some(session), conn := Some(conn))]
    else table
  }

  /** Only the owner releases; a released tombstone disappears. */
  function FreeSlot(table: Table, id: string, session: string, failed: bool): Table {
    if id !in table || table[id].session != Some(session) then table
    else if table[id].retired then table - {id}
    else table[id := table[id].(status := if failed then Error else Idle, session := None)]
  }

  /** A claim takes exactly an idle online slot, for its session and connection, and nothing else. */
  lemma ClaimEffect(table: Table, id: string, session: string, conn: string)
    ensures var next := ClaimSlot(table, id, session, conn);
            if id in table && table[id].status.Idle? && table[id].online then
              && next.Keys == table.Keys && next[id].status.Busy? && next[id].session == Some(session) && next[id].conn == Some(conn)
              && next[id].online && SamePlace(next[id], table[id]) && next[id].retired == table[id].retired
              && forall k :: k in table && k != id ==> next[k] == table[k]
            else next == table
  {
  }

  ghost function Step(table: Table, a: Action, alias: string -> string): Table {
    match a
    case Put(host, known, pools) =>
      if PutAccepted(table, host, known, pools, alias) then SyncedTable(table, host, Entries(pools)) else table
    case Claim(id, session, conn) => ClaimSlot(table, id, session, conn)
    case Free(id, session, failed) => FreeSlot(table, id, session, failed)
    case SetOnline(id, online) => if id in table then table[id := table[id].(online := online)] else table
  }

  ghost function Run(table: Table, acts: seq<Action>, alias: string -> string): Table {
    if acts == [] then table else Step(Run(table, acts[..|acts| - 1], alias), acts[|acts| - 1], alias)
  }

  ghost predicate Inv(table: Table) {
    Keyed(table) && forall id :: id in table ==> (table[id].status.Busy? <==> table[id].session.Some?)
  }

  lemma PutIsAccepted(table: Table, host: string, known: set<string>, pools: seq<Pool>, alias: string -> string)
    requires PutAccepted(table, host, known, pools, alias)
    ensures Accepted(table, host, Entries(pools), alias)
  {
    EntriesAccepted(table, host, known, pools, alias);
  }

  lemma PutKeepsInv(table: Table, host: string, entries: seq<Entry>, alias: string -> string)
    requires Inv(table) && Accepted(table, host, entries, alias)
    ensures Inv(SyncedTable(table, host, entries))
  {
    hide Synced, SyncedTable, Configured;
    var after := SyncedTable(table, host, entries);
    forall id | id in after
      ensures after[id].id == id && (after[id].status.Busy? <==> after[id].session.Some?)
    {
      SyncedTableRow(table, host, entries, id);
      WriteKeepsConsistent(table, host, entries, None, None, alias, id);
      SyncedHost(table, host, entries, id);
    }
  }

  lemma SyncedHost(table: Table, host: string, entries: seq<Entry>, id: string)
    requires Keyed(table) && DistinctEntries(entries) && Synced(table, host, entries, None, None, id).Some?
    ensures var r := Synced(table, host, entries, None, None, id).value;
            r.id == id && (r.host != host ==> id in table && r == table[id])
  {
    hide Project;
    if Configured(entries, id) {
      var k :| 0 <= k < |entries| && entries[k].slot.id == id;
      ConfiguredEntry(table, host, entries, None, None, k);
      ProjectedId(table, host, entries[k], None, None);
    }
  }

  lemma StepKeepsInv(table: Table, a: Action, alias: string -> string)
    requires Inv(table)
    ensures Inv(Step(table, a, alias))
  {
    hide SyncedTable, PutAccepted;
    if a.Put? && PutAccepted(table, a.host, a.known, a.pools, alias) {
      PutIsAccepted(table, a.host, a.known, a.pools, alias);
      PutKeepsInv(table, a.host, Entries(a.pools), alias);
    }
  }

  /** In every run a slot is busy exactly when it holds a session. */
  lemma {:induction false} RunKeepsInv(table: Table, acts: seq<Action>, alias: string -> string)
    requires Inv(table)
    ensures Inv(Run(table, acts, alias))
  {
    hide Inv, Step;
    if acts != [] {
      RunKeepsInv(table, acts[..|acts| - 1], alias);
      StepKeepsInv(Run(table, acts[..|acts| - 1], alias), acts[|acts| - 1], alias);
    }
  }

  ghost predicate HeldAt(table: Table, id: string, was: SlotRecord) {
    && id in table && table[id].host == was.host && table[id].path == was.path && table[id].pool == was.pool
    && table[id].session == was.session && table[id].status.Busy?
  }

  lemma StepKeepsHeld(table: Table, a: Action, alias: string -> string, id: string, was: SlotRecord)
    requires Inv(table) && was.session.Some? && HeldAt(table, id, was)
    requires !(a.Free? && a.id == id && Some(a.session) == was.session)
    ensures HeldAt(Step(table, a, alias), id, was)
  {
    hide SyncedTable, PutAccepted, Synced;
    if a.Put? && PutAccepted(table, a.host, a.known, a.pools, alias) {
      PutIsAccepted(table, a.host, a.known, a.pools, alias);
      SyncedTableRow(table, a.host, Entries(a.pools), id);
      if table[id].host == a.host {
        ActiveSlotsSurvive(table, a.host, Entries(a.pools), None, None, alias, id);
        SyncedHost(table, a.host, Entries(a.pools), id);
      } else {
        WriteKeepsConsistent(table, a.host, Entries(a.pools), None, None, alias, id);
      }
    }
  }

  /** Whatever is written meanwhile, a slot keeps its host, place, pool and session until its owner releases it. */
  lemma {:induction false} HeldUntilReleased(table: Table, acts: seq<Action>, alias: string -> string, id: string)
    requires Inv(table) && id in table && table[id].session.Some?
    requires forall k :: 0 <= k < |acts| ==> !(acts[k].Free? && acts[k].id == id && Some(acts[k].session) == table[id].session)
    ensures HeldAt(Run(table, acts, alias), id, table[id])
  {
    hide Step;
    if acts != [] {
      var init := acts[..|acts| - 1];
      HeldUntilReleased(table, init, alias, id);
      RunKeepsInv(table, init, alias);
      StepKeepsHeld(Run(table, init, alias), acts[|acts| - 1], alias, id, table[id]);
    }
  }

  /** No two slots of a host, in use or not, have the same place. */
  ghost predicate Apart(table: Table, alias: string -> string) {
    forall a, b :: a in table && b in table && a != b && table[a].host == table[b].host ==> alias(table[a].path) != alias(table[b].path)
  }

  ghost predicate EntriesApart(entries: seq<Entry>, alias: string -> string) {
    forall i, j :: 0 <= i < j < |entries| ==> alias(entries[i].slot.path) != alias(entries[j].slot.path)
  }

  /** An accepted write keeps the places apart exactly when the document lists no place twice. */
  lemma PutKeepsApartIff(table: Table, host: string, entries: seq<Entry>, alias: string -> string)
    requires Inv(table) && Apart(table, alias) && Accepted(table, host, entries, alias)
    ensures Apart(SyncedTable(table, host, entries), alias) <==> EntriesApart(entries, alias)
  {
    hide SyncedTable, Synced, SlotAccepted;
    var after := SyncedTable(table, host, entries);
    if EntriesApart(entries, alias) {
      forall a, b | a in after && b in after && a != b && after[a].host == after[b].host
        ensures alias(after[a].path) != alias(after[b].path)
      {
        PairStaysApart(table, host, entries, alias, a, b);
      }
    }
    if Apart(after, alias) {
      forall i, j | 0 <= i < j < |entries|
        ensures alias(entries[i].slot.path) != alias(entries[j].slot.path)
      {
        EntryPlaced(table, host, entries, i);
        EntryPlaced(table, host, entries, j);
      }
    }
  }

  lemma EntryPlaced(table: Table, host: string, entries: seq<Entry>, k: nat)
    requires k < |entries| && DistinctEntries(entries)
    ensures var after, id := SyncedTable(table, host, entries), entries[k].slot.id;
            id in after && after[id].host == host && after[id].path == entries[k].slot.path
  {
    hide SyncedTable, Synced, Acknowledged;
    SyncedTableRow(table, host, entries, entries[k].slot.id);
    ConfiguredEntry(table, host, entries, None, None, k);
  }

  lemma PairStaysApart(table: Table, host: string, entries: seq<Entry>, alias: string -> string, a: string, b: string)
    requires Inv(table) && Apart(table, alias) && Accepted(table, host, entries, alias) && EntriesApart(entries, alias) && a != b
    requires var after := SyncedTable(table, host, entries); a in after && b in after && after[a].host == after[b].host
    ensures var after := SyncedTable(table, host, entries); alias(after[a].path) != alias(after[b].path)
  {
    hide SyncedTable, Synced, SlotAccepted, Configured;
    SyncedTableRow(table, host, entries, a);
    SyncedTableRow(table, host, entries, b);
    SyncedHost(table, host, entries, a);
    SyncedHost(table, host, entries, b);
    var after := SyncedTable(table, host, entries);
    if after[a].host == host {
      SyncedOrigin(table, host, entries, None, None, a);
      SyncedOrigin(table, host, entries, None, None, b);
      ConfiguredPairApart(table, host, entries, alias, a, b, after[a].path, after[b].path);
      ConfiguredPairApart(table, host, entries, alias, b, a, after[b].path, after[a].path);
    }
  }

  /** A configured slot is apart from the other configured slots and from the slots in use. */
  lemma ConfiguredPairApart(table: Table, host: string, entries: seq<Entry>, alias: string -> string, a: string, b: string, pa: string, pb: string)
    requires Keyed(table) && Accepted(table, host, entries, alias) && EntriesApart(entries, alias) && a != b
    ensures (exists k :: 0 <= k < |entries| && entries[k].slot.id == a && pa == entries[k].slot.path)
            && ((exists k :: 0 <= k < |entries| && entries[k].slot.id == b && pb == entries[k].slot.path)
                || (b in table && table[b].host == host && Active(table[b]) && pb == table[b].path))
            ==> alias(pa) != alias(pb)
  {
    hide AliasInUse;
    if i :| 0 <= i < |entries| && entries[i].slot.id == a && pa == entries[i].slot.path {
      if b in table && table[b].host == host && Active(table[b]) && pb == table[b].path {
        assert SlotAccepted(table, host, entries[i].pool, entries[i].slot, alias);
        NotAliased(table, host, entries[i].slot, alias, b);
      }
    }
  }

  ghost predicate PlacesListedOnce(acts: seq<Action>, alias: string -> string) {
    forall k :: 0 <= k < |acts| && acts[k].Put? ==> EntriesApart(Entries(acts[k].pools), alias)
  }

  lemma StepKeepsApart(table: Table, a: Action, alias: string -> string)
    requires Inv(table) && Apart(table, alias) && (a.Put? ==> EntriesApart(Entries(a.pools), alias))
    ensures Apart(Step(table, a, alias), alias)
  {
    hide SyncedTable, PutAccepted, EntriesApart;
    if a.Put? && PutAccepted(table, a.host, a.known, a.pools, alias) {
      PutIsAccepted(table, a.host, a.known, a.pools, alias);
      PutKeepsApartIff(table, a.host, Entries(a.pools), alias);
    }
  }

  /** If no document lists a place twice, no two slots of a host ever share one, tombstones included. */
  lemma {:induction false} NoSharedPlace(table: Table, acts: seq<Action>, alias: string -> string)
    requires Inv(table) && Apart(table, alias) && PlacesListedOnce(acts, alias)
    ensures Apart(Run(table, acts, alias), alias)
  {
    hide Step, Apart, Inv, EntriesApart;
    if acts != [] {
      var init := acts[..|acts| - 1];
      NoSharedPlace(table, init, alias);
      RunKeepsInv(table, init, alias);
      StepKeepsApart(Run(table, init, alias), acts[|acts| - 1], alias);
    }
  }

  /** A document that lists one place twice is accepted, and two sessions can then work there at once. */
  lemma PlaceListedTwice(host: string, path: string, alias: string -> string)
    ensures var pool := Pool("p", [Slot("a", "a", path), Slot("b", "b", path)]);
            var acts := [Put(host, {"p"}, [pool]), SetOnline("a", true), SetOnline("b", true), Claim("a", "s", "c"), Claim("b", "t", "c")];
            var table := Run(map[], acts, alias);
            && "a" in table && "b" in table && table["a"].host == host == table["b"].host
            && table["a"].path == path == table["b"].path && table["a"].session == Some("s") && table["b"].session == Some("t")
  {
    hide Run, SyncedTable;
    var pool := Pool("p", [Slot("a", "a", path), Slot("b", "b", path)]);
    var entries := [Entry("p", pool.slots[0]), Entry("p", pool.slots[1])];
    assert Entries([pool]) == entries by {
      assert [pool][1..] == [];
      assert PoolEntries(pool) == entries;
    }
    assert PoolAccepted(map[], host, {"p"}, pool, alias);
    assert PutAccepted(map[], host, {"p"}, [pool], alias);
    var t1 := SyncedTable(map[], host, entries);
    TwoFresh(host, entries);
    var a1, a2, a3, a4, a5 := Put(host, {"p"}, [pool]), SetOnline("a", true), SetOnline("b", true), Claim("a", "s", "c"), Claim("b", "t", "c");
    assert Step(map[], a1, alias) == t1;
    RunOne(map[], [], a1, alias);
    RunOne(map[], [] + [a1], a2, alias);
    RunOne(map[], [] + [a1] + [a2], a3, alias);
    RunOne(map[], [] + [a1] + [a2] + [a3], a4, alias);
    RunOne(map[], [] + [a1] + [a2] + [a3] + [a4], a5, alias);
    assert [] + [a1] + [a2] + [a3] + [a4] + [a5] == [a1, a2, a3, a4, a5];
  }

  lemma TwoFresh(host: string, entries: seq<Entry>)
    requires |entries| == 2 && entries[0].slot.id == "a" && entries[1].slot.id == "b" && entries[0].slot.path == entries[1].slot.path
    ensures var t := SyncedTable(map[], host, entries);
            && "a" in t && "b" in t && t["a"].host == host == t["b"].host
            && t["a"].path == entries[0].slot.path == t["b"].path && t["a"].status.Idle? && t["b"].status.Idle?
  {
    SyncedTableRow(map[], host, entries, "a");
    SyncedTableRow(map[], host, entries, "b");
    ConfiguredEntry(map[], host, entries, None, None, 0);
    ConfiguredEntry(map[], host, entries, None, None, 1);
  }

  lemma RunOne(table: Table, acts: seq<Action>, a: Action, alias: string -> string)
    ensures acts == [] ==> Run(table, acts, alias) == table
    ensures Run(table, acts + [a], alias) == Step(Run(table, acts, alias), a, alias)
  {
    assert (acts + [a])[..|acts|] == acts;
  }

  // Writing a tombstone while its owner may change

  predicate RetireHits(row: Option<SlotRecord>, session: string) { row.Some? && row.value.session == Some(session) }

  predicate IdleDeleteHits(row: Option<SlotRecord>) { row.Some? ==> row.value.session.None? && !row.value.status.Busy? }

  datatype Outcome = Kept(slot: SlotRecord) | Gone | Retry

  /**
   * `persistRetiredWorkspaceSlot`. Other writers may change the row at any time: `seen(n)` is the row as the
   * n-th storage call finds it. The row is left retired with the reported owner, or absent; otherwise the call
   * asks to be retried and has not touched the row.
   */
  method PersistRetiredWorkspaceSlot(slot: SlotRecord, seen: nat -> Option<SlotRecord>) returns (outcome: Outcome, row: Option<SlotRecord>, calls: nat)
    ensures outcome.Kept? && slot.session.Some? ==>
              row.Some? && row.value.retired && !row.value.online && row.value.session == outcome.slot.session && row.value.session.Some?
    ensures outcome.Kept? && slot.session.None? ==> row == Some(slot) && outcome.slot == slot
    ensures outcome.Gone? ==> row.None? && (seen(calls).None? || (seen(calls).value.session.None? && !seen(calls).value.status.Busy?))
    ensures outcome.Retry? ==> row == seen(calls)
    ensures slot.session.Some? && RetireHits(seen(0), slot.session.value) ==> outcome == Kept(slot)
  {
    calls := 0;
    if slot.session.None? {
      return Kept(slot), Some(slot), 0;
    }
    if RetireHits(seen(0), slot.session.value) {
      return Kept(slot), Some(Retire(seen(0).value)), 0;
    }
    calls := 1;
    var current := seen(calls);
    for attempt := 0 to 2
      invariant current == seen(calls)
    {
      if current.None? {
        return Gone, None, calls;
      }
      calls := calls + 1;
      if current.value.session.Some? {
        if RetireHits(seen(calls), current.value.session.value) {
          return Kept(Retire(current.value)), Some(Retire(seen(calls).value)), calls;
        }
      } else if IdleDeleteHits(seen(calls)) {
        return Gone, None, calls;
      }
      calls := calls + 1;
      current := seen(calls);
    }
    return Retry, current, calls;
  }
}
