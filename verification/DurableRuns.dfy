/** Whole lives of the nodes of a cluster that commits one log: batches applied, snapshots
    taken on one node and installed on others, keys seeded outside the log, log writes to the
    shared store, failed commits, crashes and restarts, in any order. */
module DurableRuns {
  import opened Text
  import opened Durable
  import opened StateMachine

  /** The process is up with this cache, up but stopped by a failed commit, or down. */
  datatype Phase = Up(cache: SmState) | Stopped | Down

  /** What a state was made of: entries of the log, and keys seeded outside it. */
  datatype Item = Applied(entry: Entry) | Seeded(writes: seq<(string, Bytes)>)

  /** A snapshot, with the history of the state it carries. */
  datatype Snapshot = Snapshot(meta: Meta, state: SmState, made: seq<Item>)

  /** `building` are snapshots taken and not yet on disk. `made` and `stored` are history: what
      the state on disk was made of, in order, and the snapshot that is on disk. */
  datatype Node = Node(disk: Disk, phase: Phase, building: set<Snapshot>, made: seq<Item>, stored: Option<Snapshot>)

  datatype Event =
    | Apply(count: nat)
    | Install(snapshot: Snapshot)
    | Take(meta: Meta)
    | Store(snapshot: Snapshot)
    | Serve(meta: Meta, state: SmState)
    | Seed(writes: seq<(string, Bytes)>)
    | FailedCommit
    | LogWrite
    | Crash
    | Reopen

  const FRESH := Node(map[], Down, {}, [], None)

  /** The log position that follows a cursor: where Raft resumes. */
  function NextIndex(last: Option<LogId>): nat {
    if last.Some? then last.value.index + 1 else 0
  }

  /** The committed log starts at index 0 and has no gaps. */
  ghost predicate GapFree(log: seq<Entry>) {
    forall i :: 0 <= i < |log| ==> log[i].logId.index == i
  }

  function Make(fx: Machine, st: SmState, item: Item): SmState {
    match item
    case Applied(e) => ApplyEntry(fx, st, e)
    case Seeded(writes) => st.(data := Replay(st.data, Puts(writes)))
  }

  /** The state made of these items, each used once. */
  function Made(fx: Machine, items: seq<Item>): SmState {
    if items == [] then EMPTY else Make(fx, Made(fx, items[..|items| - 1]), items[|items| - 1])
  }

  /** The log entries among the items. */
  function Entries(items: seq<Item>): seq<Entry> {
    if items == [] then []
    else
      var front, item := Entries(items[..|items| - 1]), items[|items| - 1];
      if item.Applied? then front + [item.entry] else front
  }

  function AsItems(entries: seq<Entry>): seq<Item> { seq(|entries|, i requires 0 <= i < |entries| => Applied(entries[i])) }

  /** The next `count` entries for a node with this state. */
  function NextEntries(log: seq<Entry>, st: SmState, count: nat): seq<Entry>
    requires NextIndex(st.last) + count <= |log|
  {
    log[NextIndex(st.last)..NextIndex(st.last) + count]
  }

  /** A commit left the disk holding `st` and wrote the keys of the applied state only. */
  ghost predicate Committed(before: Disk, after: Disk, st: SmState) {
    Holds(after, st) && SameOutside(IsStateKey, before, after)
  }

  /** One event in the life of a node of the cluster that commits `log`: what the store's
      operations promise, with every commit atomic. */
  ghost predicate Step(fx: Machine, log: seq<Entry>, n: Node, e: Event, n': Node) {
    match e
    case Apply(count) =>
      && n.phase.Up? && NextIndex(n.phase.cache.last) + count <= |log|
      && var entries := NextEntries(log, n.phase.cache, count);
      && n' == n.(disk := n'.disk, phase := Up(Fold(fx, n.phase.cache, entries)), made := n.made + AsItems(entries))
      && Committed(n.disk, n'.disk, n'.phase.cache)
    case Install(snapshot) =>
      && n.phase.Up?
      && n' == n.(disk := n'.disk, phase := Up(snapshot.state), made := snapshot.made, stored := Some(snapshot))
      && Installed(n.disk, n'.disk, snapshot.meta, PayloadJson(snapshot.state))
    case Take(meta) => n.phase.Up? && n' == n.(building := n.building + {Snapshot(meta, n.phase.cache, n.made)})
    case Store(snapshot) =>
      && n.phase.Up? && snapshot in n.building
      && n' == n.(disk := n.disk[KEY_SNAPSHOT := Stored(snapshot)], building := n.building - {snapshot}, stored := Some(snapshot))
    case Serve(meta, state) =>
      n.phase.Up? && n' == n && KEY_SNAPSHOT in n.disk && n.disk[KEY_SNAPSHOT] == SnapshotJson(meta, PayloadJson(state))
    case Seed(writes) =>
      && n.phase.Up?
      && n' == n.(disk := n'.disk, phase := Up(Make(fx, n.phase.cache, Seeded(writes))), made := n.made + [Seeded(writes)])
      && Committed(n.disk, n'.disk, n'.phase.cache)
    case FailedCommit => n.phase.Up? && n' == n.(phase := Stopped)
    case LogWrite =>
      && n.phase.Up? && n' == n.(disk := n'.disk)
      && forall k :: IsSmKey(k) ==> (k in n.disk <==> k in n'.disk) && (k in n.disk ==> n'.disk[k] == n.disk[k])
    case Crash => n' == n.(phase := Down, building := {})
    case Reopen => n.phase == Down && n'.phase.Up? && n' == n.(phase := n'.phase) && Holds(n.disk, n'.phase.cache)
  }

  /** A snapshot as it is stored. */
  function Stored(snapshot: Snapshot): Blob { SnapshotJson(snapshot.meta, PayloadJson(snapshot.state)) }

  /** The nodes, and every snapshot sent so far: once stored by the node that took it, or read
      from the disk of a node that serves it. */
  datatype Cluster = Cluster(nodes: map<nat, Node>, sent: set<Snapshot>)

  /** What the event lets a node send; what it serves is what its disk says, under the history
      of the snapshot stored there. */
  ghost function Sends(n: Node, e: Event): set<Snapshot> {
    match e
    case Store(snapshot) => {snapshot}
    case Serve(meta, state) => {Snapshot(meta, state, if n.stored.Some? then n.stored.value.made else [])}
    case _ => {}
  }

  /** An event on one node; an installed snapshot was sent by some node. */
  ghost predicate ClusterStep(fx: Machine, log: seq<Entry>, c: Cluster, id: nat, e: Event, c': Cluster) {
    && id in c.nodes && id in c'.nodes && Step(fx, log, c.nodes[id], e, c'.nodes[id])
    && c'.nodes == c.nodes[id := c'.nodes[id]]
    && (e.Install? ==> e.snapshot in c.sent)
    && c'.sent == c.sent + Sends(c.nodes[id], e)
  }

  /** A cluster of fresh nodes can come to be `c` through `events`. */
  ghost predicate Reaches(fx: Machine, log: seq<Entry>, events: seq<(nat, Event)>, c: Cluster) {
    if events == [] then c.sent == {} && forall id :: id in c.nodes ==> c.nodes[id] == FRESH
    else
      var front, e := events[..|events| - 1], events[|events| - 1];
      exists prev :: Reaches(fx, log, front, prev) && ClusterStep(fx, log, prev, e.0, e.1, c)
  }

  // ---- what items make ----

  lemma {:induction false} MadeMore(fx: Machine, items: seq<Item>, entries: seq<Entry>)
    ensures Made(fx, items + AsItems(entries)) == Fold(fx, Made(fx, items), entries)
    ensures Entries(items + AsItems(entries)) == Entries(items) + entries
  {
    if entries == [] {
      assert items + AsItems(entries) == items;
    } else {
      var front, e := entries[..|entries| - 1], entries[|entries| - 1];
      MadeMore(fx, items, front);
      assert AsItems(entries) == AsItems(front) + [Applied(e)];
      assert items + AsItems(entries) == (items + AsItems(front)) + [Applied(e)];
      MadeOneMore(fx, items + AsItems(front), Applied(e));
      assert entries == front + [e];
    }
  }

  lemma MadeOneMore(fx: Machine, items: seq<Item>, item: Item)
    ensures Made(fx, items + [item]) == Make(fx, Made(fx, items), item)
    ensures Entries(items + [item]) == Entries(items) + if item.Applied? then [item.entry] else []
  {
    assert (items + [item])[..|items|] == items;
  }

  /** The cursor is that of the last entry. */
  lemma {:induction false} CursorOfMade(fx: Machine, items: seq<Item>)
    ensures Made(fx, items).last == if Entries(items) == [] then None else Some(Entries(items)[|Entries(items)| - 1].logId)
  {
    if items != [] { CursorOfMade(fx, items[..|items| - 1]); }
  }

  /** Nothing seeded: the plain fold. */
  lemma {:induction false} UnseededIsFold(fx: Machine, items: seq<Item>)
    requires forall i :: 0 <= i < |items| ==> items[i].Applied?
    ensures Made(fx, items) == Fold(fx, EMPTY, Entries(items))
  {
    if items != [] {
      UnseededIsFold(fx, items[..|items| - 1]);
      FoldSnoc(fx, EMPTY, Entries(items[..|items| - 1]), items[|items| - 1].entry);
    }
  }

  /** Spelled out: `datas[i]` is the data once the first i items are through. */
  ghost predicate MadeInTurn(fx: Machine, items: seq<Item>, datas: seq<map<string, Bytes>>, st: SmState) {
    && |datas| == |items| + 1 && datas[0] == map[] && st.data == datas[|items|]
    && (forall i :: 0 <= i < |items| ==> ItemDone(fx, items[i], datas[i], datas[i + 1]))
    && MembershipAfter(EMPTY.membership, Entries(items), st.membership)
  }

  /** A command's effects are those it has on the data it finds, and seeded keys are written as
      they are. */
  ghost predicate ItemDone(fx: Machine, item: Item, was: map<string, Bytes>, now: map<string, Bytes>) {
    match item
    case Seeded(writes) => WroteAll(was, writes, now)
    case Applied(e) => now == if e.payload.Normal? then Replay(was, fx(was, e.payload.command).0) else was
  }

  lemma ItemIsDone(fx: Machine, st: SmState, item: Item)
    ensures ItemDone(fx, item, st.data, Make(fx, st, item).data)
  {
    if item.Seeded? { PutsWriteAll(st.data, item.writes); }
  }

  lemma MadeIsInTurn(fx: Machine, items: seq<Item>) returns (datas: seq<map<string, Bytes>>)
    ensures MadeInTurn(fx, items, datas, Made(fx, items))
  {
    datas := DatasOfMade(fx, items);
    MembershipOfMade(fx, items);
  }

  lemma {:induction false} DatasOfMade(fx: Machine, items: seq<Item>) returns (datas: seq<map<string, Bytes>>)
    ensures |datas| == |items| + 1 && datas[0] == map[] && datas[|items|] == Made(fx, items).data
    ensures forall i :: 0 <= i < |items| ==> ItemDone(fx, items[i], datas[i], datas[i + 1])
  {
    if items == [] {
      datas := [map[]];
    } else {
      var n := |items| - 1;
      var front := DatasOfMade(fx, items[..n]);
      ItemIsDone(fx, Made(fx, items[..n]), items[n]);
      datas := front + [Made(fx, items).data];
      forall i | 0 <= i < |items| ensures ItemDone(fx, items[i], datas[i], datas[i + 1]) {
        if i < n { assert ItemDone(fx, items[..n][i], front[i], front[i + 1]); }
      }
    }
  }

  lemma {:induction false} MembershipOfMade(fx: Machine, items: seq<Item>)
    ensures MembershipAfter(EMPTY.membership, Entries(items), Made(fx, items).membership)
  {
    if items != [] {
      var front, item := items[..|items| - 1], items[|items| - 1];
      var mid, st := Made(fx, front), Made(fx, items);
      MembershipOfMade(fx, front);
      if item.Applied? { MembershipSnoc(EMPTY.membership, Entries(front), mid.membership, item.entry, st.membership); }
    }
  }

  /** `st` is made of the log up to its own cursor, each entry once and in order, with the
      seeded keys where they were seeded. */
  ghost predicate FollowsLog(fx: Machine, log: seq<Entry>, st: SmState, made: seq<Item>) {
    st == Made(fx, made) && NextIndex(st.last) <= |log| && Entries(made) == log[..NextIndex(st.last)]
  }

  lemma MadeOfPrefixFollows(fx: Machine, log: seq<Entry>, made: seq<Item>, m: nat)
    requires GapFree(log) && m <= |log| && Entries(made) == log[..m]
    ensures FollowsLog(fx, log, Made(fx, made), made)
  {
    CursorOfMade(fx, made);
    if m > 0 { assert log[..m][m - 1] == log[m - 1]; }
  }

  lemma ApplyFollowsLog(fx: Machine, log: seq<Entry>, st: SmState, made: seq<Item>, count: nat)
    requires GapFree(log) && FollowsLog(fx, log, st, made) && NextIndex(st.last) + count <= |log|
    ensures var entries := NextEntries(log, st, count);
            FollowsLog(fx, log, Fold(fx, st, entries), made + AsItems(entries))
  {
    var from, entries := NextIndex(st.last), NextEntries(log, st, count);
    MadeMore(fx, made, entries);
    assert log[..from] + entries == log[..from + count];
    MadeOfPrefixFollows(fx, log, made + AsItems(entries), from + count);
  }

  lemma SeedFollowsLog(fx: Machine, log: seq<Entry>, st: SmState, made: seq<Item>, writes: seq<(string, Bytes)>)
    requires FollowsLog(fx, log, st, made)
    ensures FollowsLog(fx, log, Make(fx, st, Seeded(writes)), made + [Seeded(writes)])
  {
    MadeOneMore(fx, made, Seeded(writes));
    assert Entries(made) + [] == Entries(made);
  }

  // ---- the invariant ----

  /** The disk holds a state that follows the log; the cache, when up, is that state. */
  ghost predicate StateFollows(fx: Machine, log: seq<Entry>, n: Node) {
    && Holds(n.disk, Made(fx, n.made)) && FollowsLog(fx, log, Made(fx, n.made), n.made)
    && (n.phase.Up? ==> n.phase.cache == Made(fx, n.made))
  }

  /** So do the snapshots being built and the one on disk. */
  ghost predicate SnapshotsFollow(fx: Machine, log: seq<Entry>, n: Node) {
    && (forall s :: s in n.building ==> FollowsLog(fx, log, s.state, s.made))
    && (KEY_SNAPSHOT in n.disk <==> n.stored.Some?)
    && (n.stored.Some? ==>
          n.disk[KEY_SNAPSHOT] == Stored(n.stored.value) && FollowsLog(fx, log, n.stored.value.state, n.stored.value.made))
  }

  ghost predicate Inv(fx: Machine, log: seq<Entry>, n: Node) { StateFollows(fx, log, n) && SnapshotsFollow(fx, log, n) }

  lemma HoldsAcrossLogWrites(before: Disk, after: Disk, st: SmState)
    requires Holds(before, st)
    requires forall k :: IsSmKey(k) ==> (k in before <==> k in after) && (k in before ==> after[k] == before[k])
    ensures Holds(after, st)
  {
    assert IsSmKey(KEY_SM_LAST) && IsSmKey(KEY_SM_MEMBERSHIP);
    assert HoldsData(after, st.data) by {
      forall k ensures IsSmKey(DataKey(k)) {}
    }
  }

  lemma HoldsAcrossBuild(disk: Disk, st: SmState, v: Blob)
    requires Holds(disk, st)
    ensures Holds(disk[KEY_SNAPSHOT := v], st)
  {
    FixedKeysApart();
    FixedKeyWriteKeepsData(disk, st.data, KEY_SNAPSHOT, v);
  }

  lemma StateKept(fx: Machine, log: seq<Entry>, n: Node, e: Event, n': Node)
    requires GapFree(log) && StateFollows(fx, log, n) && Step(fx, log, n, e, n')
    requires e.Install? ==> FollowsLog(fx, log, e.snapshot.state, e.snapshot.made)
    ensures StateFollows(fx, log, n')
  {
    match e
    case Apply(count) => ApplyFollowsLog(fx, log, n.phase.cache, n.made, count);
    case Seed(writes) => SeedFollowsLog(fx, log, n.phase.cache, n.made, writes);
    case Store(snapshot) => HoldsAcrossBuild(n.disk, Made(fx, n.made), Stored(snapshot));
    case LogWrite => HoldsAcrossLogWrites(n.disk, n'.disk, n.phase.cache);
    case Reopen => HeldStateIsUnique(n.disk, Made(fx, n.made), n'.phase.cache);
    case _ =>
  }

  lemma SnapshotsKept(fx: Machine, log: seq<Entry>, n: Node, e: Event, n': Node)
    requires StateFollows(fx, log, n) && SnapshotsFollow(fx, log, n) && Step(fx, log, n, e, n')
    requires e.Install? ==> FollowsLog(fx, log, e.snapshot.state, e.snapshot.made)
    ensures SnapshotsFollow(fx, log, n')
  {
    FixedKeysApart();
    assert !IsStateKey(KEY_SNAPSHOT) && IsSmKey(KEY_SNAPSHOT);
  }

  lemma InvKept(fx: Machine, log: seq<Entry>, n: Node, e: Event, n': Node)
    requires GapFree(log) && Inv(fx, log, n) && Step(fx, log, n, e, n')
    requires e.Install? ==> FollowsLog(fx, log, e.snapshot.state, e.snapshot.made)
    ensures Inv(fx, log, n')
  {
    StateKept(fx, log, n, e, n');
    SnapshotsKept(fx, log, n, e, n');
  }

  ghost predicate AllFollow(fx: Machine, log: seq<Entry>, nodes: map<nat, Node>) {
    forall id :: id in nodes ==> Inv(fx, log, nodes[id])
  }

  ghost predicate ClusterInv(fx: Machine, log: seq<Entry>, c: Cluster) {
    AllFollow(fx, log, c.nodes) && forall s :: s in c.sent ==> FollowsLog(fx, log, s.state, s.made)
  }

  lemma OthersKept(fx: Machine, log: seq<Entry>, nodes: map<nat, Node>, id: nat, nodes': map<nat, Node>)
    requires AllFollow(fx, log, nodes) && id in nodes' && Inv(fx, log, nodes'[id]) && nodes' == nodes[id := nodes'[id]]
    ensures AllFollow(fx, log, nodes')
  {}

  /** What a node sends, freshly stored or read back from its disk, follows the log. */
  lemma SentFollowsLog(fx: Machine, log: seq<Entry>, n: Node, e: Event, n': Node)
    requires SnapshotsFollow(fx, log, n) && Step(fx, log, n, e, n')
    ensures forall s :: s in Sends(n, e) ==> FollowsLog(fx, log, s.state, s.made)
  {}

  lemma ClusterInvKept(fx: Machine, log: seq<Entry>, c: Cluster, id: nat, e: Event, c': Cluster)
    requires GapFree(log) && ClusterInv(fx, log, c) && ClusterStep(fx, log, c, id, e, c')
    ensures ClusterInv(fx, log, c')
  {
    var n, n' := c.nodes[id], c'.nodes[id];
    InvKept(fx, log, n, e, n');
    OthersKept(fx, log, c.nodes, id, c'.nodes);
    SentFollowsLog(fx, log, n, e, n');
  }

  lemma FreshNodeFollows(fx: Machine, log: seq<Entry>)
    ensures Inv(fx, log, FRESH)
  {
    assert Holds(map[], EMPTY);
    assert log[..0] == [];
  }

  lemma {:induction false} InvAlways(fx: Machine, log: seq<Entry>, events: seq<(nat, Event)>, c: Cluster)
    requires GapFree(log) && Reaches(fx, log, events, c)
    ensures ClusterInv(fx, log, c)
  {
    if events == [] {
      FreshNodeFollows(fx, log);
    } else {
      var front, e := events[..|events| - 1], events[|events| - 1];
      var prev :| Reaches(fx, log, front, prev) && ClusterStep(fx, log, prev, e.0, e.1, c);
      InvAlways(fx, log, front, prev);
      ClusterInvKept(fx, log, prev, e.0, e.1, c);
    }
  }

  /** At every moment of every run of a cluster, what a restart of any node would read is made
      of the log up to the persisted cursor, each entry once and in order, with the keys seeded
      outside the log, here or on the node a snapshot came from, where they were seeded:
      `datas` are the data one item after another. Nothing seeded, it is the log applied in
      turn. A running cache is that state already. */
  lemma RestartResumesTheLog(fx: Machine, log: seq<Entry>, events: seq<(nat, Event)>, c: Cluster, id: nat)
    returns (reread: SmState, datas: seq<map<string, Bytes>>)
    requires GapFree(log) && Reaches(fx, log, events, c) && id in c.nodes
    ensures var n := c.nodes[id];
            && Holds(n.disk, reread)
            && NextIndex(reread.last) <= |log| && Entries(n.made) == log[..NextIndex(reread.last)]
            && MadeInTurn(fx, n.made, datas, reread)
            && (n.phase.Up? ==> n.phase.cache == reread)
    ensures (forall i :: 0 <= i < |c.nodes[id].made| ==> c.nodes[id].made[i].Applied?) ==>
              exists inTurn :: AppliedInTurn(fx, EMPTY, log[..NextIndex(reread.last)], inTurn, reread)
  {
    InvAlways(fx, log, events, c);
    var n := c.nodes[id];
    reread := Made(fx, n.made);
    datas := MadeIsInTurn(fx, n.made);
    if forall i :: 0 <= i < |n.made| ==> n.made[i].Applied? {
      UnseededIsFold(fx, n.made);
      var inTurn := FoldIsInTurn(fx, EMPTY, Entries(n.made));
    }
  }

  /** At every moment of every run, what a node's disk offers as its current snapshot decodes and
      follows the log. */
  lemma CurrentSnapshotFollows(fx: Machine, log: seq<Entry>, events: seq<(nat, Event)>, c: Cluster, id: nat)
    returns (snapshot: Snapshot)
    requires GapFree(log) && Reaches(fx, log, events, c) && id in c.nodes && KEY_SNAPSHOT in c.nodes[id].disk
    ensures c.nodes[id].disk[KEY_SNAPSHOT] == Stored(snapshot) && FollowsLog(fx, log, snapshot.state, snapshot.made)
  {
    InvAlways(fx, log, events, c);
    snapshot := c.nodes[id].stored.value;
  }

  // ---- the store's operations are these events ----

  /** The node while it runs, with its history as `n` has it. */
  ghost function Running(sm: PersistentStateMachine, n: Node): Node
    reads sm, sm.kv
  {
    n.(disk := sm.kv.data, phase := Up(sm.st))
  }

  /** Applying the next entries is an `Apply`, or a `FailedCommit` that stops the node. */
  method ApplyNext(sm: PersistentStateMachine, log: seq<Entry>, count: nat, io: bool, ghost n: Node) returns (ok: bool)
    requires sm.Valid() && NextIndex(sm.st.last) + count <= |log|
    modifies sm`st, sm.kv
    ensures ok ==> sm.Valid()
    ensures ok ==> var made := n.made + AsItems(NextEntries(log, old(sm.st), count));
                   Step(sm.fx, log, old(Running(sm, n)), Apply(count), Running(sm, n.(made := made)))
    ensures !ok ==> Step(sm.fx, log, old(Running(sm, n)), FailedCommit, Running(sm, n).(phase := Stopped))
  {
    var entries, responses, muts := NextEntries(log, sm.st, count), [], [];
    ghost var datas;
    ok, responses, muts, datas := sm.Apply(entries, io);
    if ok { assert Committed(old(sm.kv.data), sm.kv.data, sm.st); }
  }

  /** Installing whatever snapshot arrives is an `Install`. */
  method InstallReceived(sm: PersistentStateMachine, ghost log: seq<Entry>, meta: Meta, payload: Blob, ghost sent: Snapshot,
                         ghost n: Node)
    requires sm.Valid() && meta == sent.meta && payload == PayloadJson(sent.state)
    modifies sm`st, sm.kv
    ensures sm.Valid()
    ensures Step(sm.fx, log, old(Running(sm, n)), Install(sent), Running(sm, n.(made := sent.made, stored := Some(sent))))
  {
    var ok := sm.InstallSnapshot(meta, payload, true);
  }

  /** Building a snapshot starts with a `Take`. */
  method TakeSnapshot(sm: PersistentStateMachine, ghost log: seq<Entry>, ghost n: Node) returns (meta: Meta, payload: Blob)
    requires sm.Valid()
    modifies sm`snapshotIdx
    ensures sm.Valid() && payload == PayloadJson(sm.st)
    ensures var taken := Snapshot(meta, sm.st, n.made);
            Step(sm.fx, log, old(Running(sm, n)), Take(meta), Running(sm, n.(building := n.building + {taken})))
  {
    meta, payload := sm.TakeSnapshot();
  }

  /** Whatever was applied or installed in between, it ends with a `Store` of what was taken. */
  method StoreSnapshot(sm: PersistentStateMachine, ghost log: seq<Entry>, meta: Meta, payload: Blob, ghost taken: Snapshot,
                       ghost n: Node)
    requires sm.Valid() && taken in n.building && meta == taken.meta && payload == PayloadJson(taken.state)
    modifies sm.kv
    ensures sm.Valid()
    ensures Step(sm.fx, log, old(Running(sm, n)), Store(taken),
                 Running(sm, n.(building := n.building - {taken}, stored := Some(taken))))
  {
    var ok := sm.StoreSnapshot(meta, payload, true);
  }

  /** Reading the current snapshot, also after a restart, is a `Serve`. */
  method ServeSnapshot(sm: PersistentStateMachine, ghost log: seq<Entry>, ghost n: Node)
    returns (ok: bool, current: Option<(Meta, Blob)>)
    ensures ok && current.Some? && current.value.1.PayloadJson? ==>
              Step(sm.fx, log, Running(sm, n), Serve(current.value.0, current.value.1.state), Running(sm, n))
  {
    ok, current := sm.GetCurrentSnapshot();
  }

  /** Seeding keys at join time is a `Seed`. */
  method SeedTrust(sm: PersistentStateMachine, ghost log: seq<Entry>, writes: seq<(string, Bytes)>, ghost n: Node)
    requires sm.Valid()
    modifies sm`st, sm.kv
    ensures sm.Valid()
    ensures Step(sm.fx, log, old(Running(sm, n)), Seed(writes), Running(sm, n.(made := n.made + [Seeded(writes)])))
  {
    var ok := sm.SeedLocal(writes, true);
    assert Committed(old(sm.kv.data), sm.kv.data, sm.st);
  }

  /** After a crash the store can be reopened exactly as it was left. */
  method Restart(kv: KvStore, fx: Machine, ghost log: seq<Entry>, ghost n: Node) returns (sm: PersistentStateMachine)
    requires exists st :: Holds(kv.data, st)
    ensures sm.kv == kv && sm.fx == fx && sm.Valid()
    ensures Step(fx, log, n.(disk := kv.data, phase := Down), Reopen, Running(sm, n))
  {
    var loaded := Load(kv);
    sm := new PersistentStateMachine(kv, fx, loaded.value);
  }
}
