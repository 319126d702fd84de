/** The node-local durable store: records, the key layout shared by the Raft log and the
    state machine, and an ordered, atomic key-value store. */
module Durable {
  import opened Text

  type Bytes = seq<int>
  type Command = int

  datatype LogId = LogId(term: nat, node: nat, index: nat)

  datatype Membership = Membership(logId: Option<LogId>, voters: set<nat>)

  datatype Payload = Blank | Normal(command: Command) | Reconfigure(voters: set<nat>)

  datatype Entry = Entry(logId: LogId, payload: Payload)

  /** The applied state: what a snapshot carries and the in-memory cache holds. */
  datatype SmState = SmState(last: Option<LogId>, membership: Membership, data: map<string, Bytes>)

  const EMPTY := SmState(None, Membership(None, {}), map[])

  datatype Meta = Meta(lastLogId: Option<LogId>, membership: Membership, id: string)

  /** A stored value: raw bytes, or the JSON text of one of the typed records. */
  datatype Blob =
    | Raw(bytes: Bytes)
    | EntryJson(entry: Entry)
    | LogIdJson(logId: LogId)
    | CursorJson(last: Option<LogId>)
    | MembershipJson(membership: Membership)
    | PayloadJson(state: SmState)
    | SnapshotJson(meta: Meta, data: Blob)

  type Disk = map<string, Blob>

  // ---- batches of writes ----

  datatype Write<V> = Put(key: string, value: V) | Delete(key: string)

  function WriteOne<V>(m: map<string, V>, w: Write<V>): map<string, V> {
    match w
    case Put(k, v) => m[k := v]
    case Delete(k) => m - {k}
  }

  /** The store after an ordered batch. */
  function Replay<V>(m: map<string, V>, batch: seq<Write<V>>): map<string, V> {
    if batch == [] then m else WriteOne(Replay(m, batch[..|batch| - 1]), batch[|batch| - 1])
  }

  lemma ReplaySnoc<V>(m: map<string, V>, batch: seq<Write<V>>, w: Write<V>)
    ensures Replay(m, batch + [w]) == WriteOne(Replay(m, batch), w)
  {
    assert (batch + [w])[..|batch|] == batch;
  }

  lemma {:induction false} ReplayConcat<V>(m: map<string, V>, a: seq<Write<V>>, b: seq<Write<V>>)
    ensures Replay(m, a + b) == Replay(Replay(m, a), b)
  {
    if b == [] {
      assert a + b == a;
    } else {
      var front := b[..|b| - 1];
      ReplayConcat(m, a, front);
      assert a + b == (a + front) + [b[|b| - 1]];
      ReplaySnoc(m, a + front, b[|b| - 1]);
    }
  }

  function Deletes<V>(keys: seq<string>): (batch: seq<Write<V>>)
    ensures |batch| == |keys| && forall i :: 0 <= i < |keys| ==> batch[i].key == keys[i]
  {
    if keys == [] then [] else Deletes(keys[..|keys| - 1]) + [Delete(keys[|keys| - 1])]
  }

  lemma {:induction false} ReplayDeletes<V>(m: map<string, V>, keys: seq<string>)
    ensures Replay(m, Deletes(keys)) == m - (set k | k in keys)
  {
    if keys != [] {
      var front, last := keys[..|keys| - 1], keys[|keys| - 1];
      ReplayDeletes(m, front);
      ReplaySnoc(m, Deletes(front), Delete(last));
      var gone := set k | k in front;
      assert (set k | k in keys) == gone + {last} by { assert keys == front + [last]; }
      assert m - gone - {last} == m - (gone + {last});
    }
  }

  // ---- key layout ----

  const KEY_VOTE := "raft/vote"
  const KEY_COMMITTED := "raft/committed"
  const KEY_PURGED := "raft/purged"
  const LOG_PREFIX := "raft/log/"
  const KEY_SM_LAST := "raft/sm/last_applied"
  const KEY_SM_MEMBERSHIP := "raft/sm/membership"
  const SM_DATA_PREFIX := "raft/sm/d/"
  const KEY_SNAPSHOT := "raft/snapshot"

  function LogKey(index: nat): string { LOG_PREFIX + Padded(index, 20) }

  function LogIndex(key: string): Option<nat> {
    if LOG_PREFIX <= key then ParseU64(key[|LOG_PREFIX|..]) else None
  }

  function DataKey(raw: string): string { SM_DATA_PREFIX + raw }

  lemma U64FitsTwentyDigits()
    ensures U64_MAX < Pow10(20)
  {
    assert Pow10(10) == 10000000000;
    assert Pow10(15) == 100000 * Pow10(10);
    assert Pow10(20) == 100000 * Pow10(15);
  }

  /** Log keys parse back to their index. */
  lemma LogKeyParsesBack(index: nat)
    requires index <= U64_MAX
    ensures LogIndex(LogKey(index)) == Some(index)
  {
    U64FitsTwentyDigits();
    PaddedReadsBack(index, 20);
    assert LogKey(index)[|LOG_PREFIX|..] == Padded(index, 20);
    assert IsDigit(Padded(index, 20)[0]);
  }

  /** Log keys sort as their indexes do, over all of `u64`. */
  lemma LogKeysSort(m: nat, n: nat)
    requires m <= U64_MAX && n <= U64_MAX
    ensures Less(LogKey(m), LogKey(n)) <==> m < n
  {
    U64FitsTwentyDigits();
    PaddedSorts(m, n, 20);
    LessCommonPrefix(LOG_PREFIX, Padded(m, 20), Padded(n, 20));
  }

  /** The regions of the shared store are disjoint, whatever the raw key or index. */
  lemma RegionsAreDisjoint(raw: string, index: nat)
    ensures DataKey(raw) !in {KEY_VOTE, KEY_COMMITTED, KEY_PURGED, KEY_SM_LAST, KEY_SM_MEMBERSHIP, KEY_SNAPSHOT}
    ensures LogKey(index) !in {KEY_VOTE, KEY_COMMITTED, KEY_PURGED, KEY_SM_LAST, KEY_SM_MEMBERSHIP, KEY_SNAPSHOT}
    ensures !(LOG_PREFIX <= DataKey(raw)) && !(SM_DATA_PREFIX <= LogKey(index))
  {
    assert DataKey(raw)[5] == 's' && DataKey(raw)[6] == 'm' && DataKey(raw)[8] == 'd';
    assert LogKey(index)[5] == 'l';
  }

  lemma DataKeyInjective(a: string, b: string)
    requires DataKey(a) == DataKey(b)
    ensures a == b
  {
    assert DataKey(a)[|SM_DATA_PREFIX|..] == a && DataKey(b)[|SM_DATA_PREFIX|..] == b;
  }

  // ---- the store ----

  class KvStore {
    var data: Disk

    constructor ()
      ensures data == map[]
    {
      data := map[];
    }

    /** The keys with a prefix, once each, in no particular order. */
    method ListPrefix(prefix: string) returns (keys: seq<string>)
      ensures forall k :: k in keys <==> k in data && prefix <= k
      ensures forall i, j :: 0 <= i < j < |keys| ==> keys[i] != keys[j]
    {
      keys := [];
      var left := set k | k in data && prefix <= k;
      while left != {}
        invariant forall k :: k in data && prefix <= k <==> k in keys || k in left
        invariant forall k :: k in keys ==> k !in left
        invariant forall i, j :: 0 <= i < j < |keys| ==> keys[i] != keys[j]
        decreases left
      {
        var k :| k in left;
        keys, left := keys + [k], left - {k};
      }
    }

    /** An ordered batch, all or nothing: `io` says whether the commit went through. */
    method WriteBatch(batch: seq<Write<Blob>>, io: bool) returns (ok: bool)
      modifies this
      ensures ok == io
      ensures data == if ok then Replay(old(data), batch) else old(data)
    {
      if !io { return false; }
      for n := 0 to |batch|
        invariant data == Replay(old(data), batch[..n])
      {
        ReplaySnoc(old(data), batch[..n], batch[n]);
        assert batch[..n + 1] == batch[..n] + [batch[n]];
        data := WriteOne(data, batch[n]);
      }
      assert batch[..|batch|] == batch;
      ok := true;
    }
  }
}
