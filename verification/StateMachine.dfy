/** The durable Raft state machine: an in-memory cache of the applied state, written
    through to the node-local store, reopened after a restart and replaced by snapshots. */
module StateMachine {
  import opened Text
  import opened Durable

  /** Applying one command to the applied data: the mutations it makes, in order, and its
      response. Any deterministic function will do. */
  type Machine = (map<string, Bytes>, Command) -> (seq<Write<Bytes>>, int)

  // ---- the meaning of a log ----

  function ApplyEntry(fx: Machine, st: SmState, e: Entry): SmState {
    match e.payload
    case Blank => st.(last := Some(e.logId))
    case Normal(c) => st.(last := Some(e.logId), data := Replay(st.data, fx(st.data, c).0))
    case Reconfigure(v) => st.(last := Some(e.logId), membership := Membership(Some(e.logId), v))
  }

  function Fold(fx: Machine, st: SmState, entries: seq<Entry>): SmState {
    if entries == [] then st
    else ApplyEntry(fx, Fold(fx, st, entries[..|entries| - 1]), entries[|entries| - 1])
  }

  lemma FoldSnoc(fx: Machine, st: SmState, entries: seq<Entry>, e: Entry)
    ensures Fold(fx, st, entries + [e]) == ApplyEntry(fx, Fold(fx, st, entries), e)
  {
    assert (entries + [e])[..|entries|] == entries;
  }

  // ---- the same, spelled out entry by entry ----

  /** `datas[i]` is the data once the first i entries are through: a command's effects are those
      it has on the data it finds, and nothing else touches the data. */
  ghost predicate InTurn(fx: Machine, entries: seq<Entry>, datas: seq<map<string, Bytes>>) {
    && |datas| == |entries| + 1
    && forall i :: 0 <= i < |entries| ==>
         datas[i + 1] ==
           if entries[i].payload.Normal? then Replay(datas[i], fx(datas[i], entries[i].payload.command).0) else datas[i]
  }

  predicate LastReconfigure(entries: seq<Entry>, i: int) {
    0 <= i < |entries| && entries[i].payload.Reconfigure? && forall j :: i < j < |entries| ==> !entries[j].payload.Reconfigure?
  }

  /** The membership is that of the last reconfiguration, under its own log id, or else as it was. */
  ghost predicate MembershipAfter(was: Membership, entries: seq<Entry>, now: Membership) {
    && (forall i :: LastReconfigure(entries, i) ==> now == Membership(Some(entries[i].logId), entries[i].payload.voters))
    && ((forall i :: 0 <= i < |entries| ==> !entries[i].payload.Reconfigure?) ==> now == was)
  }

  ghost predicate AppliedInTurn(fx: Machine, was: SmState, entries: seq<Entry>, datas: seq<map<string, Bytes>>, st: SmState) {
    && InTurn(fx, entries, datas) && datas[0] == was.data && st.data == datas[|entries|]
    && MembershipAfter(was.membership, entries, st.membership)
    && st.last == if entries == [] then was.last else Some(entries[|entries| - 1].logId)
  }

  /** What the callers are told: each command's own response. */
  ghost predicate AnsweredInTurn(fx: Machine, entries: seq<Entry>, datas: seq<map<string, Bytes>>, responses: seq<int>) {
    && |responses| == |entries| < |datas|
    && forall i :: 0 <= i < |entries| ==>
         responses[i] == if entries[i].payload.Normal? then fx(datas[i], entries[i].payload.command).1 else 0
  }

  /** What the observers are shown: the commands' effects, one after another. */
  ghost function ShownInTurn(fx: Machine, entries: seq<Entry>, datas: seq<map<string, Bytes>>): seq<Write<Bytes>>
    requires |entries| < |datas|
  {
    if entries == [] then []
    else
      var n := |entries| - 1;
      var e := entries[n];
      ShownInTurn(fx, entries[..n], datas) + if e.payload.Normal? then fx(datas[n], e.payload.command).0 else []
  }

  lemma MembershipSnoc(was: Membership, entries: seq<Entry>, mid: Membership, e: Entry, now: Membership)
    requires MembershipAfter(was, entries, mid)
    requires now == if e.payload.Reconfigure? then Membership(Some(e.logId), e.payload.voters) else mid
    ensures MembershipAfter(was, entries + [e], now)
  {
    var all := entries + [e];
    forall i | LastReconfigure(all, i) ensures now == Membership(Some(all[i].logId), all[i].payload.voters) {
      if i < |entries| {
        assert !all[|entries|].payload.Reconfigure?;
        assert LastReconfigure(entries, i) by {
          forall j | i < j < |entries| ensures !entries[j].payload.Reconfigure? { assert all[j] == entries[j]; }
        }
      }
    }
    if forall i :: 0 <= i < |all| ==> !all[i].payload.Reconfigure? {
      assert !all[|entries|].payload.Reconfigure?;
      forall i | 0 <= i < |entries| ensures !entries[i].payload.Reconfigure? { assert all[i] == entries[i]; }
    }
  }

  lemma {:induction false} ShownIgnoresLater(fx: Machine, entries: seq<Entry>,
                                             a: seq<map<string, Bytes>>, b: seq<map<string, Bytes>>)
    requires |entries| < |a| && a <= b
    ensures ShownInTurn(fx, entries, a) == ShownInTurn(fx, entries, b)
  {
    if entries != [] { ShownIgnoresLater(fx, entries[..|entries| - 1], a, b); }
  }

  lemma InTurnSnoc(fx: Machine, entries: seq<Entry>, datas: seq<map<string, Bytes>>, e: Entry, data: map<string, Bytes>)
    requires InTurn(fx, entries, datas)
    requires var last := datas[|entries|];
             data == if e.payload.Normal? then Replay(last, fx(last, e.payload.command).0) else last
    ensures InTurn(fx, entries + [e], datas + [data])
  {}

  lemma AppliedSnoc(fx: Machine, was: SmState, front: seq<Entry>, datas: seq<map<string, Bytes>>, mid: SmState, e: Entry)
    requires AppliedInTurn(fx, was, front, datas, mid)
    ensures var st := ApplyEntry(fx, mid, e); AppliedInTurn(fx, was, front + [e], datas + [st.data], st)
  {
    var st := ApplyEntry(fx, mid, e);
    InTurnSnoc(fx, front, datas, e, st.data);
    MembershipSnoc(was.membership, front, mid.membership, e, st.membership);
  }

  lemma ShownSnoc(fx: Machine, front: seq<Entry>, datas: seq<map<string, Bytes>>, e: Entry, data: map<string, Bytes>)
    requires |datas| == |front| + 1
    ensures ShownInTurn(fx, front + [e], datas + [data]) ==
            ShownInTurn(fx, front, datas) + if e.payload.Normal? then fx(datas[|front|], e.payload.command).0 else []
  {
    assert (front + [e])[..|front|] == front;
    ShownIgnoresLater(fx, front, datas, datas + [data]);
  }

  /** The fold is that. */
  lemma {:induction false} FoldIsInTurn(fx: Machine, was: SmState, entries: seq<Entry>) returns (datas: seq<map<string, Bytes>>)
    ensures AppliedInTurn(fx, was, entries, datas, Fold(fx, was, entries))
  {
    if entries == [] {
      datas := [was.data];
    } else {
      var front, e := entries[..|entries| - 1], entries[|entries| - 1];
      datas := FoldIsInTurn(fx, was, front);
      assert entries == front + [e];
      AppliedSnoc(fx, was, front, datas, Fold(fx, was, front), e);
      datas := datas + [Fold(fx, was, entries).data];
    }
  }

  // ---- the state a disk holds ----

  ghost predicate HoldsData(disk: Disk, data: map<string, Bytes>) {
    forall k :: (k in data <==> DataKey(k) in disk) && (k in data ==> disk[DataKey(k)] == Raw(data[k]))
  }

  ghost predicate HoldsCursor(disk: Disk, last: Option<LogId>) {
    if KEY_SM_LAST in disk then disk[KEY_SM_LAST] == CursorJson(last) else last == None
  }

  ghost predicate HoldsMembership(disk: Disk, membership: Membership) {
    if KEY_SM_MEMBERSHIP in disk then disk[KEY_SM_MEMBERSHIP] == MembershipJson(membership)
    else membership == EMPTY.membership
  }

  ghost predicate Holds(disk: Disk, st: SmState) {
    HoldsCursor(disk, st.last) && HoldsMembership(disk, st.membership) && HoldsData(disk, st.data)
  }

  /** A disk holds at most one state, so what a restart reads is determined. */
  lemma HeldStateIsUnique(disk: Disk, a: SmState, b: SmState)
    requires Holds(disk, a) && Holds(disk, b)
    ensures a == b
  {
    forall k ensures k in a.data <==> k in b.data {
      assert k in a.data <==> DataKey(k) in disk;
    }
    assert a.data == b.data;
  }

  predicate IsDataKey(key: string) { SM_DATA_PREFIX <= key }

  /** The keys of the applied state: data, cursor, membership. */
  predicate IsStateKey(key: string) { IsDataKey(key) || key == KEY_SM_LAST || key == KEY_SM_MEMBERSHIP }

  /** The keys the state machine may write: the applied state, and the snapshot. */
  predicate IsSmKey(key: string) { IsStateKey(key) || key == KEY_SNAPSHOT }

  ghost predicate SameOutside(own: string -> bool, before: Disk, after: Disk) {
    forall k :: !own(k) ==> (k in before <==> k in after) && (k in before ==> after[k] == before[k])
  }

  ghost predicate Writes(own: string -> bool, batch: seq<Write<Blob>>) {
    forall i :: 0 <= i < |batch| ==> own(batch[i].key)
  }

  /** A batch changes no key it does not write. */
  lemma {:induction false} BatchFrame(own: string -> bool, disk: Disk, batch: seq<Write<Blob>>)
    requires Writes(own, batch)
    ensures SameOutside(own, disk, Replay(disk, batch))
  {
    if batch != [] {
      BatchFrame(own, disk, batch[..|batch| - 1]);
    }
  }

  lemma FixedKeysApart()
    ensures !IsDataKey(KEY_SM_LAST) && !IsDataKey(KEY_SM_MEMBERSHIP) && !IsDataKey(KEY_SNAPSHOT)
    ensures KEY_SM_LAST != KEY_SM_MEMBERSHIP && KEY_SM_LAST != KEY_SNAPSHOT && KEY_SM_MEMBERSHIP != KEY_SNAPSHOT
  {
    assert KEY_SM_LAST[8] == 'l' && KEY_SM_MEMBERSHIP[8] == 'm' && KEY_SNAPSHOT[6] == 'n' && SM_DATA_PREFIX[8] == 'd';
    assert SM_DATA_PREFIX[6] == 'm' && KEY_SM_LAST[6] == 'm' && KEY_SM_MEMBERSHIP[6] == 'm';
  }

  function Lift(w: Write<Bytes>): Write<Blob> {
    match w
    case Put(k, v) => Put(DataKey(k), Raw(v))
    case Delete(k) => Delete(DataKey(k))
  }

  function LiftAll(ws: seq<Write<Bytes>>): (lifted: seq<Write<Blob>>)
    ensures Writes(IsDataKey, lifted)
  {
    if ws == [] then [] else LiftAll(ws[..|ws| - 1]) + [Lift(ws[|ws| - 1])]
  }

  lemma LiftedWriteKeepsData(disk: Disk, data: map<string, Bytes>, w: Write<Bytes>)
    requires HoldsData(disk, data)
    ensures HoldsData(WriteOne(disk, Lift(w)), WriteOne(data, w))
  {
    forall k ensures DataKey(k) == DataKey(w.key) <==> k == w.key {
      if DataKey(k) == DataKey(w.key) { DataKeyInjective(k, w.key); }
    }
  }

  /** Writing mutations through to disk keeps it holding the mutated data. */
  lemma {:induction false} LiftedBatchKeepsData(disk: Disk, data: map<string, Bytes>, ws: seq<Write<Bytes>>)
    requires HoldsData(disk, data)
    ensures HoldsData(Replay(disk, LiftAll(ws)), Replay(data, ws))
  {
    if ws != [] {
      var front, w := ws[..|ws| - 1], ws[|ws| - 1];
      LiftedBatchKeepsData(disk, data, front);
      ReplaySnoc(disk, LiftAll(front), Lift(w));
      LiftedWriteKeepsData(Replay(disk, LiftAll(front)), Replay(data, front), w);
    }
  }

  lemma FixedKeyWriteKeepsData(disk: Disk, data: map<string, Bytes>, key: string, v: Blob)
    requires HoldsData(disk, data) && key in {KEY_SM_LAST, KEY_SM_MEMBERSHIP, KEY_SNAPSHOT}
    ensures HoldsData(disk[key := v], data)
  {
    forall k ensures DataKey(k) != key { RegionsAreDisjoint(k, 0); }
  }

  /** The cursor, and the membership when it moved, written after the data. */
  function CursorWrites(st: SmState, membershipChanged: bool): (batch: seq<Write<Blob>>)
    ensures Writes(IsStateKey, batch)
  {
    [Put(KEY_SM_LAST, CursorJson(st.last))]
    + if membershipChanged then [Put(KEY_SM_MEMBERSHIP, MembershipJson(st.membership))] else []
  }

  function WithCursor(disk: Disk, st: SmState, membershipChanged: bool): Disk {
    var d := disk[KEY_SM_LAST := CursorJson(st.last)];
    if membershipChanged then d[KEY_SM_MEMBERSHIP := MembershipJson(st.membership)] else d
  }

  lemma ReplayCursorWrites(disk: Disk, st: SmState, membershipChanged: bool)
    ensures Replay(disk, CursorWrites(st, membershipChanged)) == WithCursor(disk, st, membershipChanged)
  {
    var w: Write<Blob> := Put(KEY_SM_LAST, CursorJson(st.last));
    ReplaySnoc(disk, [], w);
    assert [] + [w] == [w];
    if membershipChanged {
      ReplaySnoc(disk, [w], Put(KEY_SM_MEMBERSHIP, MembershipJson(st.membership)));
    } else {
      assert [w] + [] == [w];
    }
  }

  lemma CursorCompletes(disk: Disk, st: SmState, membershipChanged: bool)
    requires HoldsData(disk, st.data) && (!membershipChanged ==> HoldsMembership(disk, st.membership))
    ensures Holds(WithCursor(disk, st, membershipChanged), st)
  {
    var one := disk[KEY_SM_LAST := CursorJson(st.last)];
    FixedKeyWriteKeepsData(disk, st.data, KEY_SM_LAST, CursorJson(st.last));
    if membershipChanged {
      FixedKeyWriteKeepsData(one, st.data, KEY_SM_MEMBERSHIP, MembershipJson(st.membership));
    }
    FixedKeysApart();
  }

  /** A batch in the making: on `disk` it would leave the data of `st`. */
  ghost predicate Staged(disk: Disk, was: SmState, st: SmState, batch: seq<Write<Blob>>, muts: seq<Write<Bytes>>) {
    HoldsData(Replay(disk, batch), st.data) && Writes(IsDataKey, batch) && Replay(was.data, muts) == st.data
  }

  lemma StageMore(disk: Disk, was: SmState, st: SmState, batch: seq<Write<Blob>>, muts: seq<Write<Bytes>>,
                  ws: seq<Write<Bytes>>, st': SmState)
    requires Staged(disk, was, st, batch, muts) && st'.data == Replay(st.data, ws)
    ensures Staged(disk, was, st', batch + LiftAll(ws), muts + ws)
  {
    LiftedBatchKeepsData(Replay(disk, batch), st.data, ws);
    ReplayConcat(disk, batch, LiftAll(ws));
    ReplayConcat(was.data, muts, ws);
  }

  lemma StagedCommits(disk: Disk, was: SmState, st: SmState, batch: seq<Write<Blob>>, muts: seq<Write<Bytes>>,
                      membershipChanged: bool)
    requires Holds(disk, was) && Staged(disk, was, st, batch, muts)
    requires !membershipChanged ==> st.membership == was.membership
    ensures Holds(Replay(disk, batch + CursorWrites(st, membershipChanged)), st)
    ensures SameOutside(IsStateKey, disk, Replay(disk, batch + CursorWrites(st, membershipChanged)))
  {
    var mid := Replay(disk, batch);
    ReplayConcat(disk, batch, CursorWrites(st, membershipChanged));
    ReplayCursorWrites(mid, st, membershipChanged);
    if !membershipChanged {
      assert HoldsMembership(mid, st.membership) by {
        BatchFrame(IsDataKey, disk, batch);
        FixedKeysApart();
      }
    }
    CursorCompletes(mid, st, membershipChanged);
    BatchFrame(IsStateKey, disk, batch + CursorWrites(st, membershipChanged));
  }

  /** These entries are through, with what was answered and shown on the way. */
  ghost predicate Through(fx: Machine, was: SmState, entries: seq<Entry>, datas: seq<map<string, Bytes>>, st: SmState,
                          muts: seq<Write<Bytes>>, responses: seq<int>) {
    && AppliedInTurn(fx, was, entries, datas, st) && AnsweredInTurn(fx, entries, datas, responses)
    && muts == ShownInTurn(fx, entries, datas) && st == Fold(fx, was, entries)
  }

  lemma ThroughSnoc(fx: Machine, was: SmState, front: seq<Entry>, datas: seq<map<string, Bytes>>, mid: SmState,
                    muts: seq<Write<Bytes>>, responses: seq<int>, e: Entry, ws: seq<Write<Bytes>>, response: int)
    requires Through(fx, was, front, datas, mid, muts, responses)
    requires (ws, response) == if e.payload.Normal? then fx(mid.data, e.payload.command) else ([], 0)
    ensures var st := ApplyEntry(fx, mid, e);
            Through(fx, was, front + [e], datas + [st.data], st, muts + ws, responses + [response])
  {
    AppliedSnoc(fx, was, front, datas, mid, e);
    ShownSnoc(fx, front, datas, e, ApplyEntry(fx, mid, e).data);
    FoldSnoc(fx, was, front, e);
  }

  /** One committed entry: the new state, its mutations, its response, and whether the
      membership moved. */
  method ApplyOne(fx: Machine, was: SmState, e: Entry) returns (st: SmState, ws: seq<Write<Bytes>>, response: int, moved: bool)
    ensures st == ApplyEntry(fx, was, e) && st.data == Replay(was.data, ws)
    ensures (ws, response) == if e.payload.Normal? then fx(was.data, e.payload.command) else ([], 0)
    ensures !moved ==> st.membership == was.membership
  {
    st, ws, response, moved := was.(last := Some(e.logId)), [], 0, false;
    match e.payload
    case Blank =>
    case Normal(c) =>
      ws, response := fx(st.data, c).0, fx(st.data, c).1;
      st := st.(data := Replay(st.data, ws));
    case Reconfigure(voters) =>
      st := st.(membership := Membership(Some(e.logId), voters));
      moved := true;
  }

  /** What is collected so far. */
  datatype Progress = Progress(st: SmState, batch: seq<Write<Blob>>, muts: seq<Write<Bytes>>, responses: seq<int>,
                               membershipChanged: bool)

  ghost predicate Collected(fx: Machine, disk: Disk, was: SmState, entries: seq<Entry>, datas: seq<map<string, Bytes>>,
                            p: Progress)
  {
    && Through(fx, was, entries, datas, p.st, p.muts, p.responses) && Staged(disk, was, p.st, p.batch, p.muts)
    && (!p.membershipChanged ==> p.st.membership == was.membership)
  }

  lemma NothingCollected(fx: Machine, disk: Disk, was: SmState)
    requires HoldsData(disk, was.data)
    ensures Collected(fx, disk, was, [], [was.data], Progress(was, [], [], [], false))
  {}

  lemma CollectedMore(fx: Machine, disk: Disk, was: SmState, front: seq<Entry>, datas: seq<map<string, Bytes>>, p: Progress,
                      e: Entry, ws: seq<Write<Bytes>>, response: int, moved: bool)
    requires Collected(fx, disk, was, front, datas, p)
    requires (ws, response) == if e.payload.Normal? then fx(p.st.data, e.payload.command) else ([], 0)
    requires var st := ApplyEntry(fx, p.st, e); st.data == Replay(p.st.data, ws) && (!moved ==> st.membership == p.st.membership)
    ensures var st := ApplyEntry(fx, p.st, e);
            Collected(fx, disk, was, front + [e], datas + [st.data],
                      Progress(st, p.batch + LiftAll(ws), p.muts + ws, p.responses + [response], p.membershipChanged || moved))
  {
    ThroughSnoc(fx, was, front, datas, p.st, p.muts, p.responses, e, ws, response);
    StageMore(disk, was, p.st, p.batch, p.muts, ws, ApplyEntry(fx, p.st, e));
  }

  /** Run committed entries on the cached state, collecting the batch to commit, the
      raw mutations and the responses. */
  method Stage(fx: Machine, was: SmState, entries: seq<Entry>, ghost disk: Disk)
    returns (p: Progress, ghost datas: seq<map<string, Bytes>>)
    requires HoldsData(disk, was.data)
    ensures Collected(fx, disk, was, entries, datas, p)
  {
    p := Progress(was, [], [], [], false);
    datas := [was.data];
    NothingCollected(fx, disk, was);
    ghost var done: seq<Entry> := [];
    for i := 0 to |entries|
      invariant done == entries[..i] && Collected(fx, disk, was, done, datas, p)
    {
      var st, ws, response, moved := ApplyOne(fx, p.st, entries[i]);
      CollectedMore(fx, disk, was, done, datas, p, entries[i], ws, response, moved);
      done, datas := done + [entries[i]], datas + [st.data];
      p := Progress(st, p.batch + LiftAll(ws), p.muts + ws, p.responses + [response], p.membershipChanged || moved);
    }
    assert done == entries;
  }

  /** Read the applied state back from disk (the restart path). */
  method Load(kv: KvStore) returns (r: Option<SmState>)
    ensures r.Some? ==> Holds(kv.data, r.value)
    ensures (exists st :: Holds(kv.data, st)) ==> r.Some?
  {
    var st := EMPTY;
    if KEY_SM_LAST in kv.data {
      if !kv.data[KEY_SM_LAST].CursorJson? { return None; }
      st := st.(last := kv.data[KEY_SM_LAST].last);
    }
    if KEY_SM_MEMBERSHIP in kv.data {
      if !kv.data[KEY_SM_MEMBERSHIP].MembershipJson? { return None; }
      st := st.(membership := kv.data[KEY_SM_MEMBERSHIP].membership);
    }
    var keys := kv.ListPrefix(SM_DATA_PREFIX);
    for i := 0 to |keys|
      invariant st.last == (if KEY_SM_LAST in kv.data then kv.data[KEY_SM_LAST].last else None)
      invariant st.membership ==
                if KEY_SM_MEMBERSHIP in kv.data then kv.data[KEY_SM_MEMBERSHIP].membership else EMPTY.membership
      invariant forall k :: k in st.data <==> DataKey(k) in keys[..i]
      invariant forall k :: k in st.data ==> kv.data[DataKey(k)] == Raw(st.data[k])
    {
      var key := keys[i];
      assert key in keys;
      var raw := key[|SM_DATA_PREFIX|..];
      assert DataKey(raw) == key;
      assert key in kv.data;
      if !kv.data[key].Raw? {
        assert forall d :: !HoldsData(kv.data, d);
        return None;
      }
      forall k ensures DataKey(k) in keys[..i + 1] <==> DataKey(k) in keys[..i] || k == raw {
        if DataKey(k) == key { DataKeyInjective(k, raw); }
      }
      st := st.(data := st.data[raw := kv.data[key].bytes]);
    }
    assert keys[..|keys|] == keys;
    forall k ensures DataKey(k) in keys <==> DataKey(k) in kv.data {}
    r := Some(st);
  }

  function Puts(writes: seq<(string, Bytes)>): seq<Write<Bytes>> {
    seq(|writes|, i requires 0 <= i < |writes| => Put(writes[i].0, writes[i].1))
  }

  /** The data after these writes, the last of a key prevailing, and nothing else changed. */
  ghost predicate WroteAll(was: map<string, Bytes>, writes: seq<(string, Bytes)>, now: map<string, Bytes>) {
    && (forall k :: k in now <==> k in was || exists i :: 0 <= i < |writes| && writes[i].0 == k)
    && (forall i :: 0 <= i < |writes| && writes[i].0 in now && (forall j :: i < j < |writes| ==> writes[j].0 != writes[i].0) ==>
          now[writes[i].0] == writes[i].1)
    && (forall k :: k in was && k in now && (forall i :: 0 <= i < |writes| ==> writes[i].0 != k) ==> now[k] == was[k])
  }

  lemma {:induction false} PutsWriteAll(was: map<string, Bytes>, writes: seq<(string, Bytes)>)
    ensures WroteAll(was, writes, Replay(was, Puts(writes)))
  {
    if writes != [] {
      var front, w := writes[..|writes| - 1], writes[|writes| - 1];
      PutsWriteAll(was, front);
      PutsSnoc(was, writes);
      WroteOneMore(was, writes, Replay(was, Puts(front)));
    }
  }

  lemma PutsSnoc(was: map<string, Bytes>, writes: seq<(string, Bytes)>)
    requires writes != []
    ensures var w := writes[|writes| - 1]; Replay(was, Puts(writes)) == Replay(was, Puts(writes[..|writes| - 1]))[w.0 := w.1]
  {
    var front, w := writes[..|writes| - 1], writes[|writes| - 1];
    assert Puts(writes) == Puts(front) + [Put(w.0, w.1)];
    ReplaySnoc(was, Puts(front), Put(w.0, w.1));
  }

  lemma WroteOneMore(was: map<string, Bytes>, writes: seq<(string, Bytes)>, mid: map<string, Bytes>)
    requires writes != [] && WroteAll(was, writes[..|writes| - 1], mid)
    ensures var w := writes[|writes| - 1]; WroteAll(was, writes, mid[w.0 := w.1])
  {
    var n := |writes| - 1;
    var front, w := writes[..n], writes[n];
    var now := mid[w.0 := w.1];
    forall k ensures k in now <==> k in was || exists i :: 0 <= i < |writes| && writes[i].0 == k {
      if i :| 0 <= i < |front| && front[i].0 == k { assert writes[i].0 == k; }
    }
    forall i | 0 <= i < |writes| && (forall j :: i < j < |writes| ==> writes[j].0 != writes[i].0)
      ensures now[writes[i].0] == writes[i].1
    {
      if i < n {
        assert writes[n].0 != writes[i].0 && front[i] == writes[i];
        forall j | i < j < n ensures front[j].0 != front[i].0 { assert writes[j] == front[j]; }
      }
    }
    forall k | k in was && (forall i :: 0 <= i < |writes| ==> writes[i].0 != k) ensures now[k] == was[k] {
      assert writes[n].0 != k;
      forall i | 0 <= i < n ensures front[i].0 != k { assert writes[i] == front[i]; }
    }
  }

  method PutAll(data: map<string, Bytes>) returns (puts: seq<Write<Bytes>>)
    ensures Replay(map[], puts) == data
  {
    puts := [];
    var left := data.Keys;
    while left != {}
      invariant left <= data.Keys && Replay(map[], puts) == map k | k in data && k !in left :: data[k]
      decreases left
    {
      var k :| k in left;
      ReplaySnoc(map[], puts, Put(k, data[k]));
      puts, left := puts + [Put(k, data[k])], left - {k};
    }
  }

  lemma ClearedOfData(disk: Disk, keys: set<string>)
    requires forall k :: k in disk && IsDataKey(k) ==> k in keys
    ensures HoldsData(disk - keys, map[])
  {
    forall k ensures DataKey(k) !in disk - keys { assert IsDataKey(DataKey(k)); }
  }

  /** The rest of a snapshot's batch: cursor, membership and the snapshot itself. */
  function InstallTail(meta: Meta, snapshot: Blob): (batch: seq<Write<Blob>>)
    requires snapshot.PayloadJson?
    ensures Writes(IsSmKey, batch)
  {
    CursorWrites(snapshot.state, true) + [Put(KEY_SNAPSHOT, SnapshotJson(meta, snapshot))]
  }

  lemma InstallCompletes(disk: Disk, meta: Meta, snapshot: Blob)
    requires snapshot.PayloadJson? && HoldsData(disk, snapshot.state.data)
    ensures var after := Replay(disk, InstallTail(meta, snapshot));
            && Holds(after, snapshot.state)
            && KEY_SNAPSHOT in after && after[KEY_SNAPSHOT] == SnapshotJson(meta, snapshot)
  {
    var st, v := snapshot.state, SnapshotJson(meta, snapshot);
    var two := WithCursor(disk, st, true);
    ReplayCursorWrites(disk, st, true);
    ReplaySnoc(disk, CursorWrites(st, true), Put(KEY_SNAPSHOT, v));
    CursorCompletes(disk, st, true);
    FixedKeyWriteKeepsData(two, st.data, KEY_SNAPSHOT, v);
    FixedKeysApart();
  }

  method ClearData(kv: KvStore) returns (batch: seq<Write<Blob>>)
    ensures HoldsData(Replay(kv.data, batch), map[]) && Writes(IsDataKey, batch)
  {
    var keys := kv.ListPrefix(SM_DATA_PREFIX);
    batch := Deletes(keys);
    ReplayDeletes(kv.data, keys);
    ClearedOfData(kv.data, set k | k in keys);
    assert forall i :: 0 <= i < |keys| ==> keys[i] in keys;
  }

  /** What installing a snapshot makes of a disk: it holds exactly the snapshot's state, and
      the snapshot, and every key outside the state machine's own is as it was. */
  ghost predicate Installed(before: Disk, after: Disk, meta: Meta, snapshot: Blob)
    requires snapshot.PayloadJson?
  {
    && Holds(after, snapshot.state) && SameOutside(IsSmKey, before, after)
    && KEY_SNAPSHOT in after && after[KEY_SNAPSHOT] == SnapshotJson(meta, snapshot)
  }

  lemma InstallFrame(disk: Disk, deletes: seq<Write<Blob>>, raw: seq<Write<Bytes>>, tail: seq<Write<Blob>>)
    requires Writes(IsDataKey, deletes) && Writes(IsSmKey, tail)
    ensures SameOutside(IsSmKey, disk, Replay(disk, deletes + LiftAll(raw) + tail))
  {
    assert Writes(IsSmKey, deletes);
    assert Writes(IsSmKey, LiftAll(raw));
    BatchFrame(IsSmKey, disk, deletes + LiftAll(raw) + tail);
  }

  lemma InstallBatchInstalls(disk: Disk, deletes: seq<Write<Blob>>, raw: seq<Write<Bytes>>, meta: Meta, snapshot: Blob)
    requires snapshot.PayloadJson? && Replay(map[], raw) == snapshot.state.data
    requires HoldsData(Replay(disk, deletes), map[]) && Writes(IsDataKey, deletes)
    ensures Installed(disk, Replay(disk, deletes + LiftAll(raw) + InstallTail(meta, snapshot)), meta, snapshot)
  {
    var puts, tail := LiftAll(raw), InstallTail(meta, snapshot);
    InstallFrame(disk, deletes, raw, tail);
    LiftedBatchKeepsData(Replay(disk, deletes), map[], raw);
    ReplayConcat(disk, deletes, puts);
    ReplayConcat(disk, deletes + puts, tail);
    InstallCompletes(Replay(disk, deletes + puts), meta, snapshot);
  }

  /** The whole batch of a snapshot: delete the old data keys, put the new ones, then the
      cursor, the membership and the snapshot. */
  method InstallBatch(kv: KvStore, meta: Meta, snapshot: Blob) returns (batch: seq<Write<Blob>>)
    requires snapshot.PayloadJson?
    ensures Installed(kv.data, Replay(kv.data, batch), meta, snapshot)
  {
    var deletes := ClearData(kv);
    var raw := PutAll(snapshot.state.data);
    InstallBatchInstalls(kv.data, deletes, raw, meta, snapshot);
    batch := deletes + LiftAll(raw) + InstallTail(meta, snapshot);
  }

  /** A snapshot is named after the entry it reaches and its number in this process. */
  function SnapshotId(last: Option<LogId>, number: nat): string {
    Decimal(if last.Some? then last.value.index else 0) + "-" + Decimal(number)
  }

  /** So no two snapshots of a process share a name. */
  lemma SnapshotIdsDiffer(a: Option<LogId>, m: nat, b: Option<LogId>, n: nat)
    requires SnapshotId(a, m) == SnapshotId(b, n)
    ensures m == n
  {
    var i, j := if a.Some? then a.value.index else 0, if b.Some? then b.value.index else 0;
    DecimalReadsBack(i);
    DecimalReadsBack(j);
    DecimalReadsBack(m);
    DecimalReadsBack(n);
    var id := SnapshotId(a, m);
    assert id[|Decimal(i)|] == '-' && id[|Decimal(j)|] == '-';
    assert forall k :: 0 <= k < |Decimal(i)| ==> id[k] == Decimal(i)[k];
    assert forall k :: 0 <= k < |Decimal(j)| ==> id[k] == Decimal(j)[k];
    assert |Decimal(i)| == |Decimal(j)|;
    assert id[|Decimal(i)| + 1..] == Decimal(m) == Decimal(n);
  }

  class PersistentStateMachine {
    const kv: KvStore
    const fx: Machine
    var st: SmState
    var snapshotIdx: nat

    /** The cache is exactly what a restart would read. */
    ghost predicate Valid()
      reads this, kv
    {
      Holds(kv.data, st)
    }

    constructor (kv: KvStore, fx: Machine, loaded: SmState)
      requires Holds(kv.data, loaded)
      ensures this.kv == kv && this.fx == fx && st == loaded && Valid()
    {
      this.kv, this.fx, st, snapshotIdx := kv, fx, loaded, 0;
    }

    /** Apply committed entries: the data, the cursor and any membership change reach the
        disk in one batch. A failed commit leaves the disk as it was. `muts` is what the
        observers are shown. */
    method Apply(entries: seq<Entry>, io: bool)
      returns (ok: bool, responses: seq<int>, muts: seq<Write<Bytes>>, ghost datas: seq<map<string, Bytes>>)
      requires Valid()
      modifies this`st, kv
      ensures ok == io
      ensures AppliedInTurn(fx, old(st), entries, datas, st) && AnsweredInTurn(fx, entries, datas, responses)
      ensures muts == ShownInTurn(fx, entries, datas) && Replay(old(st.data), muts) == st.data
      ensures st == Fold(fx, old(st), entries)
      ensures ok ==> Valid() && SameOutside(IsStateKey, old(kv.data), kv.data)
      ensures !ok ==> kv.data == old(kv.data)
    {
      var p;
      p, datas := Stage(fx, st, entries, kv.data);
      StagedCommits(kv.data, st, p.st, p.batch, p.muts, p.membershipChanged);
      st, muts, responses := p.st, p.muts, p.responses;
      ok := kv.WriteBatch(p.batch + CursorWrites(st, p.membershipChanged), io);
    }

    /** Take a snapshot of the cached state. */
    method TakeSnapshot() returns (meta: Meta, payload: Blob)
      modifies this`snapshotIdx
      ensures payload == PayloadJson(st) && meta.lastLogId == st.last && meta.membership == st.membership
      ensures snapshotIdx == old(snapshotIdx) + 1 && meta.id == SnapshotId(st.last, snapshotIdx)
    {
      snapshotIdx := snapshotIdx + 1;
      meta := Meta(st.last, st.membership, SnapshotId(st.last, snapshotIdx));
      payload := PayloadJson(st);
    }

    /** Keep a snapshot on disk. The cached state may have moved on since it was taken. */
    method StoreSnapshot(meta: Meta, payload: Blob, io: bool) returns (ok: bool)
      requires Valid()
      modifies kv
      ensures Valid() && ok == io
      ensures kv.data == if ok then old(kv.data)[KEY_SNAPSHOT := SnapshotJson(meta, payload)] else old(kv.data)
    {
      FixedKeysApart();
      FixedKeyWriteKeepsData(kv.data, st.data, KEY_SNAPSHOT, SnapshotJson(meta, payload));
      var put: Write<Blob> := Put(KEY_SNAPSHOT, SnapshotJson(meta, payload));
      ReplaySnoc(kv.data, [], put);
      assert [] + [put] == [put];
      ok := kv.WriteBatch([put], io);
    }

    /** Take a snapshot and keep it on disk. */
    method BuildSnapshot(io: bool) returns (ok: bool, meta: Meta, payload: Blob)
      requires Valid()
      modifies this`snapshotIdx, kv
      ensures Valid() && ok == io
      ensures payload == PayloadJson(st) && meta.lastLogId == st.last && meta.membership == st.membership
      ensures kv.data == if ok then old(kv.data)[KEY_SNAPSHOT := SnapshotJson(meta, payload)] else old(kv.data)
    {
      meta, payload := TakeSnapshot();
      ok := StoreSnapshot(meta, payload, io);
    }

    /** The snapshot on disk, if there is one; `ok` is false when it does not decode. */
    method GetCurrentSnapshot() returns (ok: bool, current: Option<(Meta, Blob)>)
      ensures ok <==> (KEY_SNAPSHOT in kv.data ==> kv.data[KEY_SNAPSHOT].SnapshotJson?)
      ensures ok ==> (current.None? <==> KEY_SNAPSHOT !in kv.data)
      ensures ok && current.Some? ==> kv.data[KEY_SNAPSHOT] == SnapshotJson(current.value.0, current.value.1)
    {
      if KEY_SNAPSHOT !in kv.data { return true, None; }
      var raw := kv.data[KEY_SNAPSHOT];
      if !raw.SnapshotJson? { return false, None; }
      return true, Some((raw.meta, raw.data));
    }

    /** Replace the applied state wholesale by a received snapshot. A snapshot that does
        not decode, or a failed commit, changes nothing. */
    method InstallSnapshot(meta: Meta, snapshot: Blob, io: bool) returns (ok: bool)
      requires Valid()
      modifies this`st, kv
      ensures ok == (io && snapshot.PayloadJson?)
      ensures ok ==> Valid() && st == snapshot.state && Installed(old(kv.data), kv.data, meta, snapshot)
      ensures !ok ==> st == old(st) && kv.data == old(kv.data)
    {
      if !snapshot.PayloadJson? { return false; }
      var batch := InstallBatch(kv, meta, snapshot);
      ok := kv.WriteBatch(batch, io);
      if ok { st := snapshot.state; }
    }

    /** Seed applied keys locally, in the cache and durably, outside the log. */
    method SeedLocal(writes: seq<(string, Bytes)>, io: bool) returns (ok: bool)
      requires Valid()
      modifies this`st, kv
      ensures ok == (io || writes == [])
      ensures st == old(st).(data := Replay(old(st).data, Puts(writes))) && WroteAll(old(st).data, writes, st.data)
      ensures ok ==> Valid() && SameOutside(IsDataKey, old(kv.data), kv.data)
      ensures !ok ==> kv.data == old(kv.data)
    {
      PutsWriteAll(st.data, writes);
      if writes == [] { return true; }
      LiftedBatchKeepsData(kv.data, st.data, Puts(writes));
      BatchFrame(IsDataKey, kv.data, LiftAll(Puts(writes)));
      FixedKeysApart();
      st := st.(data := Replay(st.data, Puts(writes)));
      ok := kv.WriteBatch(LiftAll(Puts(writes)), io);
    }
  }

  /** A snapshot built on one node and installed on another, whatever that one held,
      makes its cache and its disk hold exactly the source's state, and a restart reads
      that state back. */
  method TransferAndRestart(source: PersistentStateMachine, target: PersistentStateMachine)
    returns (reopened: Option<SmState>)
    requires source.Valid() && target.Valid() && source != target && source.kv != target.kv
    modifies source`snapshotIdx, source.kv, target`st, target.kv
    ensures source.st == old(source.st) && target.st == source.st && reopened == Some(source.st)
    ensures SameOutside(IsSmKey, old(target.kv.data), target.kv.data)
  {
    var built, meta, payload := source.BuildSnapshot(true);
    var installed := target.InstallSnapshot(meta, payload, true);
    reopened := Load(target.kv);
    HeldStateIsUnique(target.kv.data, target.st, reopened.value);
  }
}
