/** The durable Raft log over the shared store, as a refinement of a plain map from index
    to entry. */
module LogStore {
  import opened Text
  import opened OrderedKeys
  import opened Durable
  import opened StateMachine

  predicate IsLogKey(key: string) { LOG_PREFIX <= key }

  /** The keys the log store may write. */
  predicate IsLogStoreKey(key: string) { IsLogKey(key) || key == KEY_PURGED }

  /** Every log key of the disk holds the entry of its index, and no entry is missing. */
  ghost predicate Refines(disk: Disk, log: map<nat, Entry>) {
    && (forall i: nat :: i in log ==> HoldsEntry(disk, i, log[i]))
    && (forall k :: k in disk && IsLogKey(k) ==> IsEntryKey(k, log))
  }

  ghost predicate HoldsEntry(disk: Disk, i: nat, e: Entry) {
    i <= U64_MAX && e.logId.index == i && LogKey(i) in disk && disk[LogKey(i)] == EntryJson(e)
  }

  ghost predicate IsEntryKey(key: string, log: map<nat, Entry>) {
    LogIndex(key).Some? && LogIndex(key).value in log && key == LogKey(LogIndex(key).value)
  }

  lemma LogKeyInjective(i: nat, j: nat)
    requires i <= U64_MAX && j <= U64_MAX && LogKey(i) == LogKey(j)
    ensures i == j
  {
    LogKeyParsesBack(i);
    LogKeyParsesBack(j);
  }

  // ---- the abstract operations ----

  function AppendAll(log: map<nat, Entry>, entries: seq<Entry>): map<nat, Entry> {
    if entries == [] then log
    else
      var e := entries[|entries| - 1];
      AppendAll(log, entries[..|entries| - 1])[e.logId.index := e]
  }

  /** The entries are in the log, the last of an index prevailing, and the others are as they
      were. */
  ghost predicate Appended(was: map<nat, Entry>, entries: seq<Entry>, now: map<nat, Entry>) {
    && (forall i :: 0 <= i < |entries| && LastOfIndex(entries, i) ==>
          entries[i].logId.index in now && now[entries[i].logId.index] == entries[i])
    && (forall n: nat :: Absent(entries, n) ==> (n in now <==> n in was) && (n in was ==> now[n] == was[n]))
  }

  ghost predicate LastOfIndex(entries: seq<Entry>, i: nat) {
    i < |entries| && forall j :: i < j < |entries| ==> entries[j].logId.index != entries[i].logId.index
  }

  ghost predicate Absent(entries: seq<Entry>, n: nat) { forall i :: 0 <= i < |entries| ==> entries[i].logId.index != n }

  lemma LastInFront(entries: seq<Entry>, i: nat)
    requires i < |entries| - 1 && LastOfIndex(entries, i)
    ensures LastOfIndex(entries[..|entries| - 1], i) && entries[|entries| - 1].logId.index != entries[i].logId.index
  {}

  lemma AbsentInFront(entries: seq<Entry>, n: nat)
    requires entries != [] && Absent(entries, n)
    ensures Absent(entries[..|entries| - 1], n) && entries[|entries| - 1].logId.index != n
  {}

  lemma AppendedOneMore(was: map<nat, Entry>, entries: seq<Entry>, mid: map<nat, Entry>)
    requires entries != [] && Appended(was, entries[..|entries| - 1], mid)
    ensures var e := entries[|entries| - 1]; Appended(was, entries, mid[e.logId.index := e])
  {
    var last := |entries| - 1;
    var front, e := entries[..last], entries[last];
    var now := mid[e.logId.index := e];
    forall i | 0 <= i < |entries| && LastOfIndex(entries, i)
      ensures entries[i].logId.index in now && now[entries[i].logId.index] == entries[i]
    {
      if i < last {
        LastInFront(entries, i);
        assert front[i] == entries[i];
      }
    }
    forall n: nat | Absent(entries, n) ensures (n in now <==> n in was) && (n in was ==> now[n] == was[n]) {
      AbsentInFront(entries, n);
    }
  }

  lemma {:induction false} AppendAllAppends(was: map<nat, Entry>, entries: seq<Entry>)
    ensures Appended(was, entries, AppendAll(was, entries))
  {
    if entries != [] {
      AppendAllAppends(was, entries[..|entries| - 1]);
      AppendedOneMore(was, entries, AppendAll(was, entries[..|entries| - 1]));
    }
  }

  /** Exactly the entries that `kept` holds of are left, as they were. */
  ghost predicate Left(was: map<nat, Entry>, kept: nat -> bool, now: map<nat, Entry>) {
    forall n: nat :: (n in now <==> n in was && kept(n)) && (n in now ==> now[n] == was[n])
  }

  function Below(log: map<nat, Entry>, index: nat): map<nat, Entry> { map i | i in log && i < index :: log[i] }

  function Above(log: map<nat, Entry>, index: nat): map<nat, Entry> { map i | i in log && i > index :: log[i] }

  lemma RefinesPut(disk: Disk, log: map<nat, Entry>, e: Entry)
    requires Refines(disk, log) && e.logId.index <= U64_MAX
    ensures Refines(disk[LogKey(e.logId.index) := EntryJson(e)], log[e.logId.index := e])
  {
    var i := e.logId.index;
    var disk', log' := disk[LogKey(i) := EntryJson(e)], log[i := e];
    forall j: nat | j in log' ensures HoldsEntry(disk', j, log'[j]) {
      if j != i {
        assert HoldsEntry(disk, j, log[j]);
        if LogKey(j) == LogKey(i) { LogKeyInjective(i, j); }
      }
    }
    forall k | k in disk' && IsLogKey(k) ensures IsEntryKey(k, log') {
      if k in disk { assert IsEntryKey(k, log); } else { LogKeyParsesBack(i); }
    }
  }

  /** Deleting the keys of some indexes restricts the log. */
  lemma RefinesDeletes(disk: Disk, log: map<nat, Entry>, keys: set<string>, kept: map<nat, Entry>)
    requires Refines(disk, log)
    requires forall i: nat :: i in kept <==> i in log && LogKey(i) !in keys
    requires forall i: nat :: i in kept ==> kept[i] == log[i]
    ensures Refines(disk - keys, kept)
  {
    forall i: nat | i in kept ensures HoldsEntry(disk - keys, i, kept[i]) {
      assert HoldsEntry(disk, i, log[i]);
    }
    forall k | k in disk - keys && IsLogKey(k) ensures IsEntryKey(k, kept) {
      assert IsEntryKey(k, log);
    }
  }

  lemma RefinesMarker(disk: Disk, log: map<nat, Entry>, id: LogId)
    requires Refines(disk, log)
    ensures Refines(Marked(disk, id), log)
  {
    MarkerIsNoLogKey();
    var disk' := Marked(disk, id);
    forall i: nat | i in log ensures HoldsEntry(disk', i, log[i]) {
      assert HoldsEntry(disk, i, log[i]);
      assert IsLogKey(LogKey(i));
    }
    forall k | k in disk' && IsLogKey(k) ensures IsEntryKey(k, log) { assert k in disk; }
  }

  lemma MarkerIsNoLogKey()
    ensures !IsLogKey(KEY_PURGED)
  {
    assert KEY_PURGED[5] == 'p' && LOG_PREFIX[5] == 'l';
  }

  /** Two disks that agree outside the log and hold the same log are the same disk. */
  lemma RefinedDiskIsUnique(a: Disk, b: Disk, log: map<nat, Entry>)
    requires Refines(a, log) && Refines(b, log) && SameOutside(IsLogKey, a, b)
    ensures a == b
  {
    forall k ensures (k in a <==> k in b) && (k in a ==> a[k] == b[k]) {
      if IsLogKey(k) && (k in a || k in b) {
        assert IsEntryKey(k, log);
        var i := LogIndex(k).value;
        assert HoldsEntry(a, i, log[i]) && HoldsEntry(b, i, log[i]);
      }
    }
  }

  lemma KeyOfEntry(disk: Disk, log: map<nat, Entry>, i: nat)
    requires Refines(disk, log) && i in log
    ensures HoldsEntry(disk, i, log[i]) && IsLogKey(LogKey(i)) && LogIndex(LogKey(i)) == Some(i)
  {
    assert HoldsEntry(disk, i, log[i]);
    LogKeyParsesBack(i);
  }

  class PersistentLogStore {
    const kv: KvStore
    ghost var log: map<nat, Entry>

    ghost predicate Valid()
      reads this, kv
    {
      Refines(kv.data, log)
    }

    /** Open the store, empty or after a restart. */
    constructor (kv: KvStore, ghost held: map<nat, Entry>)
      requires Refines(kv.data, held)
      ensures this.kv == kv && Valid() && log == held
    {
      this.kv, log := kv, held;
    }

    method Append(entries: seq<Entry>, io: bool) returns (ok: bool)
      requires Valid() && forall i :: 0 <= i < |entries| ==> entries[i].logId.index <= U64_MAX
      modifies this, kv
      ensures Valid() && ok == io
      ensures log == (if ok then AppendAll(old(log), entries) else old(log)) && (ok ==> Appended(old(log), entries, log))
      ensures SameOutside(IsLogStoreKey, old(kv.data), kv.data)
    {
      var batch := AppendBatch(entries, kv.data, log);
      ok := kv.WriteBatch(batch, io);
      AppendAllAppends(log, entries);
      if ok { log := AppendAll(log, entries); }
    }

    /** Delete the conflicting suffix. */
    method Truncate(id: LogId, io: bool) returns (ok: bool)
      requires Valid()
      modifies this, kv
      ensures Valid() && ok == io
      ensures if ok then Left(old(log), n => n < id.index, log) else log == old(log)
      ensures SameOutside(IsLogStoreKey, old(kv.data), kv.data)
    {
      var batch := DropBatch(kv, log, i => i >= id.index, Below(log, id.index));
      ok := kv.WriteBatch(batch, io);
      if ok { log := Below(log, id.index); }
    }

    /** Record the purge point, then delete the purged prefix: two commits, of which the
        second, or both, may fail. */
    method Purge(id: LogId, io: bool, io2: bool) returns (ok: bool)
      requires Valid()
      modifies this, kv
      ensures Valid() && ok == (io && io2)
      ensures if ok then Left(old(log), n => n > id.index, log) && log == Above(old(log), id.index) else log == old(log)
      ensures SameOutside(IsLogKey, if io then Marked(old(kv.data), id) else old(kv.data), kv.data)
      ensures !io ==> kv.data == old(kv.data)
    {
      var marked := kv.WriteBatch([Put(KEY_PURGED, LogIdJson(id))], io);
      if !marked { return false; }
      ReplayMarker(old(kv.data), id);
      RefinesMarker(old(kv.data), log, id);
      var batch := DropBatch(kv, log, i => i <= id.index, Above(log, id.index));
      ok := kv.WriteBatch(batch, io2);
      if ok { log := Above(log, id.index); }
    }
  }

  /** Purging again after a purge that was cut off between its commits leaves the disk
      that an uninterrupted purge leaves. */
  method PurgeAfterCutOff(store: PersistentLogStore, cutOff: LogId, id: LogId, ghost uninterrupted: Disk)
    requires store.Valid()
    requires Refines(uninterrupted, Above(store.log, id.index))
    requires SameOutside(IsLogKey, Marked(store.kv.data, id), uninterrupted)
    modifies store, store.kv
    ensures store.Valid() && store.log == Above(old(store.log), id.index)
    ensures store.kv.data == uninterrupted
  {
    var first := store.Purge(cutOff, true, false);
    var second := store.Purge(id, true, true);
    assert SameOutside(IsLogKey, store.kv.data, uninterrupted);
    RefinedDiskIsUnique(store.kv.data, uninterrupted, store.log);
  }

  function Marked(disk: Disk, id: LogId): Disk { disk[KEY_PURGED := LogIdJson(id)] }

  lemma ReplayMarker(disk: Disk, id: LogId)
    ensures Replay(disk, [Put(KEY_PURGED, LogIdJson(id))]) == Marked(disk, id)
  {
    var w: Write<Blob> := Put(KEY_PURGED, LogIdJson(id));
    ReplaySnoc(disk, [], w);
    assert [] + [w] == [w];
  }

  method AppendBatch(entries: seq<Entry>, ghost disk: Disk, ghost log: map<nat, Entry>) returns (batch: seq<Write<Blob>>)
    requires Refines(disk, log) && forall i :: 0 <= i < |entries| ==> entries[i].logId.index <= U64_MAX
    ensures Refines(Replay(disk, batch), AppendAll(log, entries))
    ensures SameOutside(IsLogStoreKey, disk, Replay(disk, batch))
  {
    batch := [];
    for i := 0 to |entries|
      invariant Refines(Replay(disk, batch), AppendAll(log, entries[..i]))
      invariant Writes(IsLogStoreKey, batch)
    {
      var e := entries[i];
      var put := Put(LogKey(e.logId.index), EntryJson(e));
      RefinesPut(Replay(disk, batch), AppendAll(log, entries[..i]), e);
      ReplaySnoc(disk, batch, put);
      assert entries[..i + 1][..i] == entries[..i];
      batch := batch + [put];
    }
    assert entries[..|entries|] == entries;
    BatchFrame(IsLogStoreKey, disk, batch);
  }

  /** The listed log keys whose index is to be dropped. */
  method KeysToDrop(kv: KvStore, drop: nat -> bool) returns (dropped: seq<string>)
    ensures forall k :: k in dropped <==> k in kv.data && IsLogKey(k) && LogIndex(k).Some? && drop(LogIndex(k).value)
  {
    var keys := kv.ListPrefix(LOG_PREFIX);
    dropped := [];
    for i := 0 to |keys|
      invariant forall k :: k in dropped <==> k in keys[..i] && LogIndex(k).Some? && drop(LogIndex(k).value)
    {
      if LogIndex(keys[i]).Some? && drop(LogIndex(keys[i]).value) { dropped := dropped + [keys[i]]; }
      assert keys[..i + 1] == keys[..i] + [keys[i]];
    }
    assert keys[..|keys|] == keys;
  }

  lemma DropRefines(disk: Disk, log: map<nat, Entry>, drop: nat -> bool, kept: map<nat, Entry>, dropped: seq<string>)
    requires Refines(disk, log) && kept == map i | i in log && !drop(i) :: log[i]
    requires forall k :: k in dropped <==> k in disk && IsLogKey(k) && LogIndex(k).Some? && drop(LogIndex(k).value)
    ensures Refines(Replay(disk, Deletes(dropped)), kept)
  {
    ReplayDeletes(disk, dropped);
    DroppedKeys(disk, log, (set k | k in dropped), drop);
    RefinesDeletes(disk, log, (set k | k in dropped), kept);
  }

  lemma DropFrame(disk: Disk, dropped: seq<string>)
    requires forall k :: k in dropped ==> IsLogKey(k)
    ensures SameOutside(IsLogKey, disk, Replay(disk, Deletes(dropped)))
  {
    assert forall i :: 0 <= i < |dropped| ==> dropped[i] in dropped;
    BatchFrame(IsLogKey, disk, Deletes(dropped));
  }

  /** The batch that drops the entries of some indexes. */
  method DropBatch(kv: KvStore, ghost log: map<nat, Entry>, drop: nat -> bool, ghost kept: map<nat, Entry>)
    returns (batch: seq<Write<Blob>>)
    requires Refines(kv.data, log) && kept == map i | i in log && !drop(i) :: log[i]
    ensures Refines(Replay(kv.data, batch), kept)
    ensures SameOutside(IsLogKey, kv.data, Replay(kv.data, batch))
  {
    var dropped := KeysToDrop(kv, drop);
    batch := Deletes(dropped);
    DropRefines(kv.data, log, drop, kept, dropped);
    DropFrame(kv.data, dropped);
  }

  lemma DroppedKeys(disk: Disk, log: map<nat, Entry>, dropped: set<string>, drop: nat -> bool)
    requires Refines(disk, log)
    requires forall k :: k in dropped <==> k in disk && IsLogKey(k) && LogIndex(k).Some? && drop(LogIndex(k).value)
    ensures forall i: nat :: i in log ==> (LogKey(i) in dropped <==> drop(i))
  {
    forall i: nat | i in log ensures LogKey(i) in dropped <==> drop(i) { KeyOfEntry(disk, log, i); }
  }

  // ---- reads ----

  ghost predicate ByIndex(entries: seq<Entry>) {
    forall a, b :: 0 <= a < b < |entries| ==> entries[a].logId.index < entries[b].logId.index
  }

  /** Exactly the entries of the log whose index is wanted. */
  ghost predicate Selects(entries: seq<Entry>, log: map<nat, Entry>, wanted: nat -> bool) {
    forall e :: e in entries <==> e.logId.index in log && log[e.logId.index] == e && wanted(e.logId.index)
  }

  lemma KeyHoldsEntry(disk: Disk, log: map<nat, Entry>, key: string)
    requires Refines(disk, log) && key in disk && IsLogKey(key)
    ensures IsEntryKey(key, log) && LogIndex(key).value <= U64_MAX && disk[key] == EntryJson(log[LogIndex(key).value])
    ensures log[LogIndex(key).value].logId.index == LogIndex(key).value
  {
    assert IsEntryKey(key, log);
    assert HoldsEntry(disk, LogIndex(key).value, log[LogIndex(key).value]);
  }

  lemma SortedKeysGiveSortedEntries(disk: Disk, log: map<nat, Entry>, keys: seq<string>, entries: seq<Entry>)
    requires Refines(disk, log) && Ascending(keys) && |entries| == |keys|
    requires forall j :: 0 <= j < |keys| ==> keys[j] in disk && IsLogKey(keys[j]) && disk[keys[j]] == EntryJson(entries[j])
    requires forall k :: k in disk && IsLogKey(k) ==> k in keys
    ensures ByIndex(entries) && Selects(entries, log, i => true)
  {
    forall j | 0 <= j < |keys|
      ensures keys[j] == LogKey(entries[j].logId.index) && entries[j].logId.index in log
      ensures log[entries[j].logId.index] == entries[j] && entries[j].logId.index <= U64_MAX
    {
      KeyHoldsEntry(disk, log, keys[j]);
    }
    forall a, b | 0 <= a < b < |entries| ensures entries[a].logId.index < entries[b].logId.index {
      LogKeysSort(entries[a].logId.index, entries[b].logId.index);
    }
    forall e: Entry | e.logId.index in log && log[e.logId.index] == e ensures e in entries {
      var i := e.logId.index;
      KeyOfEntry(disk, log, i);
      var j :| 0 <= j < |keys| && keys[j] == LogKey(i);
      LogKeyInjective(i, entries[j].logId.index);
    }
  }

  method AllEntries(kv: KvStore, ghost log: map<nat, Entry>) returns (entries: seq<Entry>)
    requires Refines(kv.data, log)
    ensures ByIndex(entries) && Selects(entries, log, i => true)
  {
    var listed := kv.ListPrefix(LOG_PREFIX);
    var keys := Sort(listed);
    SortSorts(listed);
    entries := [];
    for i := 0 to |keys|
      invariant |entries| == i
      invariant forall j :: 0 <= j < i ==>
                  keys[j] in kv.data && IsLogKey(keys[j]) && kv.data[keys[j]] == EntryJson(entries[j])
    {
      assert keys[i] in keys;
      KeyHoldsEntry(kv.data, log, keys[i]);
      entries := entries + [kv.data[keys[i]].entry];
    }
    SortedKeysGiveSortedEntries(kv.data, log, keys, entries);
  }

  /** A range read: exactly the entries in range, ascending. */
  method TryGetLogEntries(store: PersistentLogStore, contains: nat -> bool) returns (entries: seq<Entry>)
    requires store.Valid()
    ensures ByIndex(entries) && Selects(entries, store.log, contains)
  {
    var all := AllEntries(store.kv, store.log);
    entries := [];
    for i := 0 to |all|
      invariant ByIndex(entries)
      invariant forall e :: e in entries <==> e in all[..i] && contains(e.logId.index)
    {
      assert all[..i + 1] == all[..i] + [all[i]];
      if contains(all[i].logId.index) {
        forall j | 0 <= j < |entries| ensures entries[j].logId.index < all[i].logId.index { assert entries[j] in entries; }
        entries := entries + [all[i]];
      }
    }
    assert all[..|all|] == all;
  }

  /** The purge marker, and the last log id: that of the greatest stored index, or else the
      marker. `ok` is false when the marker does not decode. */
  method GetLogState(store: PersistentLogStore) returns (ok: bool, lastPurged: Option<LogId>, last: Option<LogId>)
    requires store.Valid()
    ensures ok <==> (KEY_PURGED in store.kv.data ==> store.kv.data[KEY_PURGED].LogIdJson?)
    ensures ok ==> lastPurged == if KEY_PURGED in store.kv.data then Some(store.kv.data[KEY_PURGED].logId) else None
    ensures ok && store.log == map[] ==> last == lastPurged
    ensures ok && store.log != map[] ==>
              last.Some? && last.value.index in store.log && last.value == store.log[last.value.index].logId
              && forall i :: i in store.log ==> i <= last.value.index
  {
    lastPurged, last := None, None;
    if KEY_PURGED in store.kv.data {
      if !store.kv.data[KEY_PURGED].LogIdJson? { return false, None, None; }
      lastPurged := Some(store.kv.data[KEY_PURGED].logId);
    }
    var all := AllEntries(store.kv, store.log);
    forall i | i in store.log ensures store.log[i].logId.index == i { KeyOfEntry(store.kv.data, store.log, i); }
    LastIsGreatest(store.log, all);
    last := if all == [] then lastPurged else Some(all[|all| - 1].logId);
    ok := true;
  }

  lemma LastIsGreatest(log: map<nat, Entry>, all: seq<Entry>)
    requires forall i :: i in log ==> log[i].logId.index == i
    requires ByIndex(all) && Selects(all, log, i => true)
    ensures all == [] <==> log == map[]
    ensures all != [] ==>
              var last := all[|all| - 1].logId;
              last.index in log && log[last.index].logId == last && forall i :: i in log ==> i <= last.index
  {
    assert forall i :: i in log ==> log[i] in all;
    if all != [] {
      assert all[|all| - 1] in all;
    } else {
      assert log.Keys == {};
    }
  }

  /** The two users of the shared store never write each other's keys. */
  lemma StoresAreApart(key: string)
    ensures !(IsLogStoreKey(key) && IsSmKey(key))
    ensures KEY_VOTE != KEY_PURGED && !IsLogKey(KEY_VOTE) && !IsSmKey(KEY_VOTE)
    ensures KEY_COMMITTED != KEY_PURGED && !IsLogKey(KEY_COMMITTED) && !IsSmKey(KEY_COMMITTED)
  {
    assert LOG_PREFIX[5] == 'l' && KEY_PURGED[5] == 'p' && KEY_VOTE[5] == 'v' && KEY_COMMITTED[5] == 'c';
    assert SM_DATA_PREFIX[5] == 's' && KEY_SM_LAST[5] == 's' && KEY_SM_MEMBERSHIP[5] == 's' && KEY_SNAPSHOT[5] == 's';
  }
}
